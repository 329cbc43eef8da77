/**
  Per-page text extraction (MainViewModel.extractTextFromPDF): every recognized
  observation of every page becomes an element carrying its text, its frame in
  page space and its page index.
*/
module Extraction {
  import opened Wrappers
  import opened Geometry

  /** One recognizer observation: its top candidate string, if there is one, and its bounding box. */
  datatype Observation = Observation(topCandidate: Option<string>, box: Box)

  /**
    One page of an opened document: the size of its media box and the observations
    the recognizer returned for its raster, in the order it returned them.
  */
  datatype SourcePage = SourcePage(width: real, height: real, observations: seq<Observation>)

  /** An opened document: its pages in order. */
  type Document = seq<SourcePage>

  /** One extracted element: the recognized text, its frame in page space and the index of its page. */
  datatype Element = Element(text: string, frame: Rect, page: int)

  /** The element an observation with a top candidate becomes on a page. */
  function ElementOf(o: Observation, width: real, height: real, page: int): Element
    requires o.topCandidate.Some?
  {
    Element(o.topCandidate.value, MapBox(o.box, width, height), page)
  }

  /**
    The elements one page contributes, built the way the recognizer's completion
    handler appends them: observations without a top candidate are skipped.
  */
  function PageElements(obs: seq<Observation>, width: real, height: real, page: int): (r: seq<Element>)
    ensures forall e :: e in r ==> e.page == page
    ensures |r| <= |obs|
  {
    if obs == [] then []
    else
      var last := obs[|obs| - 1];
      PageElements(obs[..|obs| - 1], width, height, page)
      + (if last.topCandidate.Some? then [ElementOf(last, width, height, page)] else [])
  }

  /** The observations that have a top candidate, in recognizer order. */
  function Recognized(obs: seq<Observation>): (r: seq<Observation>)
    ensures forall o :: o in r ==> o in obs && o.topCandidate.Some?
    ensures forall o :: o in obs && o.topCandidate.Some? ==> o in r
  {
    if obs == [] then []
    else (if obs[0].topCandidate.Some? then [obs[0]] else []) + Recognized(obs[1..])
  }

  /** The elements of every page, in page order and, within a page, in observation order. */
  function Extracted(doc: Document): seq<Element> {
    if doc == [] then []
    else
      var n := |doc| - 1;
      Extracted(doc[..n]) + PageElements(doc[n].observations, doc[n].width, doc[n].height, n)
  }

  /**
    Every extracted element's page is an index of the document, and the
    elements come in non-decreasing page order.
  */
  lemma {:induction false} ExtractedPages(doc: Document)
    ensures var r := Extracted(doc);
      && (forall e :: e in r ==> 0 <= e.page < |doc|)
      && (forall i, j :: 0 <= i <= j < |r| ==> r[i].page <= r[j].page)
    decreases |doc|
  {
    if doc != [] {
      var n := |doc| - 1;
      var front := Extracted(doc[..n]);
      var last := PageElements(doc[n].observations, doc[n].width, doc[n].height, n);
      ExtractedPages(doc[..n]);
      var r := front + last;
      assert Extracted(doc) == r;
      forall e | e in r
        ensures 0 <= e.page < |doc|
      {
        if e !in front {
          assert e in last;
        }
      }
      forall i, j | 0 <= i <= j < |r|
        ensures r[i].page <= r[j].page
      {
        if j < |front| {
          assert r[i] == front[i] && r[j] == front[j];
        } else {
          assert r[j] == last[j - |front|] && r[j] in last;
          assert r[j].page == n;
          if i < |front| {
            assert r[i] == front[i] && front[i] in front;
            assert |doc[..n]| == n;
            assert r[i].page < n;
          } else {
            assert r[i] == last[i - |front|] && r[i] in last;
            assert r[i].page == n;
          }
        }
      }
    }
  }

  /** The elements on page `p`, in list order (`filter { $0.page == pageIndex }`). */
  function OnPage(es: seq<Element>, p: int): (r: seq<Element>)
    ensures |r| <= |es|
  {
    if es == [] then []
    else (if es[0].page == p then [es[0]] else []) + OnPage(es[1..], p)
  }

  /** The filter keeps exactly the elements of page `p`. */
  lemma {:induction false} OnPageMembers(es: seq<Element>, p: int)
    ensures forall e :: e in OnPage(es, p) <==> e in es && e.page == p
    decreases |es|
  {
    if es != [] {
      OnPageMembers(es[1..], p);
      assert es == [es[0]] + es[1..];
    }
  }

  /** The texts of a list of elements, in order. */
  function ElementTexts(es: seq<Element>): (r: seq<string>)
    ensures |r| == |es| && forall k :: 0 <= k < |es| ==> r[k] == es[k].text
  {
    seq(|es|, k requires 0 <= k < |es| => es[k].text)
  }

  lemma {:induction false} RecognizedAppend(a: seq<Observation>, b: seq<Observation>)
    ensures Recognized(a + b) == Recognized(a) + Recognized(b)
    decreases |a|
  {
    if a == [] {
      assert a + b == b;
    } else {
      assert (a + b)[1..] == a[1..] + b;
      RecognizedAppend(a[1..], b);
    }
  }

  /**
    A page contributes one element per observation that has a top candidate, in
    observation order, with the candidate's text and the mapped box; observations
    without a top candidate contribute nothing.
  */
  lemma {:induction false} PageElementsAreRecognized(obs: seq<Observation>, width: real, height: real, page: int)
    ensures var r := PageElements(obs, width, height, page);
            var rec := Recognized(obs);
      && |r| == |rec|
      && forall k :: 0 <= k < |rec| ==> rec[k].topCandidate.Some? && r[k] == ElementOf(rec[k], width, height, page)
    decreases |obs|
  {
    var rec := Recognized(obs);
    assert forall k :: 0 <= k < |rec| ==> rec[k] in rec;
    if obs != [] {
      var n := |obs| - 1;
      assert obs == obs[..n] + [obs[n]];
      RecognizedAppend(obs[..n], [obs[n]]);
      PageElementsAreRecognized(obs[..n], width, height, page);
    }
  }

  lemma {:induction false} OnPageAppend(a: seq<Element>, b: seq<Element>, p: int)
    ensures OnPage(a + b, p) == OnPage(a, p) + OnPage(b, p)
    decreases |a|
  {
    if a == [] {
      assert a + b == b;
    } else {
      var head := if a[0].page == p then [a[0]] else [];
      assert (a + b)[0] == a[0] && (a + b)[1..] == a[1..] + b;
      assert OnPage(a + b, p) == head + OnPage(a[1..] + b, p);
      OnPageAppend(a[1..], b, p);
      assert OnPage(a, p) == head + OnPage(a[1..], p);
      assert head + (OnPage(a[1..], p) + OnPage(b, p)) == (head + OnPage(a[1..], p)) + OnPage(b, p);
    }
  }

  lemma {:induction false} OnPageAll(es: seq<Element>, p: int)
    requires forall e :: e in es ==> e.page == p
    ensures OnPage(es, p) == es
    decreases |es|
  {
    if es != [] {
      OnPageAll(es[1..], p);
    }
  }

  lemma {:induction false} OnPageNone(es: seq<Element>, p: int)
    requires forall e :: e in es ==> e.page != p
    ensures OnPage(es, p) == []
    decreases |es|
  {
    if es != [] {
      OnPageNone(es[1..], p);
    }
  }

  /**
    Filtering the extracted elements by a page index gives back exactly what that
    page contributed, in observation order, and nothing for an index outside
    the document.
  */
  lemma {:induction false} ExtractedOnPage(doc: Document, p: int)
    ensures OnPage(Extracted(doc), p)
         == if 0 <= p < |doc| then PageElements(doc[p].observations, doc[p].width, doc[p].height, p) else []
    decreases |doc|
  {
    if doc == [] {
    } else {
      var n := |doc| - 1;
      var front := Extracted(doc[..n]);
      var last := PageElements(doc[n].observations, doc[n].width, doc[n].height, n);
      assert Extracted(doc) == front + last;
      OnPageAppend(front, last, p);
      ExtractedOnPage(doc[..n], p);
      if 0 <= p < n {
        assert doc[..n][p] == doc[p];
      }
      if p == n {
        OnPageAll(last, p);
      } else {
        OnPageNone(last, p);
      }
    }
  }
}
