/**
  The font-size search of MainViewModel.adjustFontSizeToFit: a binary search in
  half-point steps for a size at which the measured wrapped text height fits
  the frame's height.
*/
module FontFit {
  import opened Geometry

  /**
    Text measurement, supplied by the platform: the height of `text` set in the
    font named `fontName` at a size, wrapped to a width
    (`boundingRect(with:options:attributes:context:)`).
  */
  type Measure = (string, string, real, real) -> real

  /** The lower bound the search starts from. */
  const MinFontSize: real := 10.0

  /** The text measured at `size` is no taller than the frame. */
  predicate Fits(text: string, fontName: string, frame: Rect, measure: Measure, size: real) {
    measure(text, fontName, size, frame.width) <= frame.height
  }

  /** Twice the width of the interval still to search, rounded down, plus one; zero once the bounds have crossed. */
  function SearchRank(lo: real, hi: real): nat {
    if lo <= hi then ((hi - lo) * 2.0).Floor + 1 else 0
  }

  /**
    The search loop from bounds `lo`, `hi` with current candidate `best`:
    a midpoint that is too large lowers the upper bound below it, one that
    fits becomes the candidate and raises the lower bound above it.
  */
  function Search(text: string, fontName: string, frame: Rect, measure: Measure,
                  lo: real, hi: real, best: real): real
    decreases SearchRank(lo, hi)
  {
    if lo <= hi then
      var mid := (lo + hi) / 2.0;
      if measure(text, fontName, mid, frame.width) > frame.height then
        Search(text, fontName, frame, measure, lo, mid - 0.5, best)
      else
        Search(text, fontName, frame, measure, mid + 0.5, hi, mid)
    else
      best
  }

  /**
    Each iteration lowers the search rank, whichever branch it takes: a rejected
    midpoint lowers the upper bound to half a point below it, an accepted one
    raises the lower bound to half a point above it.
  */
  lemma SearchStepShrinks(lo: real, hi: real)
    requires lo <= hi
    ensures var mid := (lo + hi) / 2.0;
      && SearchRank(lo, mid - 0.5) < SearchRank(lo, hi)
      && SearchRank(mid + 0.5, hi) < SearchRank(lo, hi)
  {
    var mid := (lo + hi) / 2.0;
    assert (mid - 0.5 - lo) * 2.0 == (hi - lo) - 1.0;
    assert (hi - (mid + 0.5)) * 2.0 == (hi - lo) - 1.0;
  }

  /**
    The search keeps its candidate either at the initial size or at a size of
    at least the minimum, at most the initial size, that fits.
  */
  lemma {:induction false} SearchKeepsCandidate(text: string, fontName: string, frame: Rect, measure: Measure,
                                                lo: real, hi: real, best: real, initial: real)
    requires MinFontSize <= lo && hi <= initial
    requires best == initial || (MinFontSize <= best <= initial && Fits(text, fontName, frame, measure, best))
    ensures var r := Search(text, fontName, frame, measure, lo, hi, best);
      r == initial || (MinFontSize <= r <= initial && Fits(text, fontName, frame, measure, r))
    decreases SearchRank(lo, hi)
  {
    if lo <= hi {
      var mid := (lo + hi) / 2.0;
      if measure(text, fontName, mid, frame.width) > frame.height {
        SearchKeepsCandidate(text, fontName, frame, measure, lo, mid - 0.5, best, initial);
      } else {
        SearchKeepsCandidate(text, fontName, frame, measure, mid + 0.5, hi, mid, initial);
      }
    }
  }

  /**
    The fitted size: never above the initial size; the initial size itself when
    it is below the minimum (the loop does not run); otherwise at least the
    minimum; and, unless it is the initial size, a size that fits.
  */
  function FitFontSize(text: string, fontName: string, frame: Rect, measure: Measure, initial: real): (r: real)
    ensures r <= initial
    ensures initial < MinFontSize ==> r == initial
    ensures MinFontSize <= initial ==> MinFontSize <= r
    ensures r == initial || Fits(text, fontName, frame, measure, r)
  {
    SearchKeepsCandidate(text, fontName, frame, measure, MinFontSize, initial, initial, initial);
    Search(text, fontName, frame, measure, MinFontSize, initial, initial)
  }

  /** Measured height never decreases as the size grows: a size that fits makes every smaller size fit. */
  ghost predicate Monotone(text: string, fontName: string, frame: Rect, measure: Measure) {
    forall s, t :: s <= t ==> measure(text, fontName, s, frame.width) <= measure(text, fontName, t, frame.width)
  }

  /**
    The search from bounds `lo`, `hi` ends with crossed bounds `lo'`, `hi'` and
    keeps two facts on the way: the candidate is the initial size with the lower
    bound untouched, or a fitting size half a point below the lower bound; and
    the upper bound is the initial size, or half a point above it does not fit.
  */
  lemma {:induction false} SearchEnds(text: string, fontName: string, frame: Rect, measure: Measure,
                                      lo: real, hi: real, best: real, initial: real)
    returns (lo': real, hi': real)
    requires MinFontSize <= initial && hi <= initial
    requires (lo == MinFontSize && best == initial) || (lo == best + 0.5 && Fits(text, fontName, frame, measure, best))
    requires hi == initial || !Fits(text, fontName, frame, measure, hi + 0.5)
    ensures var r := Search(text, fontName, frame, measure, lo, hi, best);
      && hi' < lo' && hi' <= initial
      && ((lo' == MinFontSize && r == initial) || (lo' == r + 0.5 && Fits(text, fontName, frame, measure, r)))
      && (hi' == initial || !Fits(text, fontName, frame, measure, hi' + 0.5))
    decreases SearchRank(lo, hi)
  {
    if lo <= hi {
      SearchStepShrinks(lo, hi);
      var mid := (lo + hi) / 2.0;
      if measure(text, fontName, mid, frame.width) > frame.height {
        assert mid - 0.5 + 0.5 == mid;
        lo', hi' := SearchEnds(text, fontName, frame, measure, lo, mid - 0.5, best, initial);
      } else {
        lo', hi' := SearchEnds(text, fontName, frame, measure, mid + 0.5, hi, mid, initial);
      }
    } else {
      lo', hi' := lo, hi;
    }
  }

  /** Under a monotone measure, a size that does not fit makes every larger size not fit. */
  lemma NoFitAbove(text: string, fontName: string, frame: Rect, measure: Measure, t: real)
    requires Monotone(text, fontName, frame, measure)
    requires !Fits(text, fontName, frame, measure, t)
    ensures forall s :: t <= s ==> !Fits(text, fontName, frame, measure, s)
  {
    forall s | t <= s
      ensures !Fits(text, fontName, frame, measure, s)
    {
      assert measure(text, fontName, t, frame.width) <= measure(text, fontName, s, frame.width);
    }
  }

  /**
    Under a monotone measure, from an initial size of at least 10: a fitted size
    is within a point of the largest size that fits, since no size a point or
    more above it, up to the initial size, fits; and a size that does not fit
    comes back only as the initial size, when no size from 10.5 up fits.
  */
  lemma FitNearLargest(text: string, fontName: string, frame: Rect, measure: Measure, initial: real)
    requires Monotone(text, fontName, frame, measure)
    requires MinFontSize <= initial
    ensures var r := FitFontSize(text, fontName, frame, measure, initial);
      && (Fits(text, fontName, frame, measure, r) ==>
            forall s :: r + 1.0 <= s <= initial ==> !Fits(text, fontName, frame, measure, s))
      && (!Fits(text, fontName, frame, measure, r) ==>
            r == initial && forall s :: MinFontSize + 0.5 <= s ==> !Fits(text, fontName, frame, measure, s))
  {
    var lo', hi' := SearchEnds(text, fontName, frame, measure, MinFontSize, initial, initial, initial);
    var r := FitFontSize(text, fontName, frame, measure, initial);
    assert r == Search(text, fontName, frame, measure, MinFontSize, initial, initial);
    if hi' != initial {
      NoFitAbove(text, fontName, frame, measure, hi' + 0.5);
    }
  }

  /**
    When no midpoint fits, the initial size is returned even if the minimum
    size would have fitted: measured so that only sizes up to 10 fit a frame
    10 high, a search from 10.3 rejects its one midpoint and returns 10.3.
  */
  lemma FitMayOverflow()
    ensures var frame := Rect(0.0, 0.0, 100.0, 10.0);
            var measure: Measure := (t, f, s, w) => if s > 10.0 then 100.0 else 1.0;
      && Monotone("text", "Courier", frame, measure)
      && Fits("text", "Courier", frame, measure, MinFontSize)
      && FitFontSize("text", "Courier", frame, measure, 10.3) == 10.3
      && !Fits("text", "Courier", frame, measure, 10.3)
  {
    var frame := Rect(0.0, 0.0, 100.0, 10.0);
    var measure: Measure := (t, f, s, w) => if s > 10.0 then 100.0 else 1.0;
    assert Search("text", "Courier", frame, measure, 10.0, 9.65, 10.3) == 10.3;
  }

  /**
    A larger frame can give a smaller fitted size, even with height equal to the
    size: from 20, a frame 5 high fits no midpoint and keeps 20, while a frame
    15 high accepts 15 and then rejects every larger midpoint.
  */
  lemma FitNotMonotoneInHeight()
    ensures var measure: Measure := (t, f, s, w) => s;
            var low := Rect(0.0, 0.0, 100.0, 5.0);
            var high := Rect(0.0, 0.0, 100.0, 15.0);
      && Monotone("text", "Courier", low, measure) && Monotone("text", "Courier", high, measure)
      && FitFontSize("text", "Courier", low, measure, 20.0) == 20.0
      && FitFontSize("text", "Courier", high, measure, 20.0) == 15.0
  {
    var measure: Measure := (t, f, s, w) => s;
    var low := Rect(0.0, 0.0, 100.0, 5.0);
    var high := Rect(0.0, 0.0, 100.0, 15.0);
    assert Search("text", "Courier", low, measure, 10.0, 9.6875, 20.0) == 20.0;
    assert Search("text", "Courier", low, measure, 10.0, 10.375, 20.0) == 20.0;
    assert Search("text", "Courier", low, measure, 10.0, 11.75, 20.0) == 20.0;
    assert Search("text", "Courier", low, measure, 10.0, 14.5, 20.0) == 20.0;
    assert Search("text", "Courier", high, measure, 15.5, 15.1875, 15.0) == 15.0;
    assert Search("text", "Courier", high, measure, 15.5, 15.875, 15.0) == 15.0;
    assert Search("text", "Courier", high, measure, 15.5, 17.25, 15.0) == 15.0;
    assert Search("text", "Courier", high, measure, 15.5, 20.0, 15.0) == 15.0;
  }
}
