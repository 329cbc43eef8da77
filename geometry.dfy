/**
  Rectangles and the mapping from recognizer coordinates to page coordinates
  (MainViewModel.extractTextFromPDF, the frame built from the bounding box).
*/
module Geometry {

  /** A rectangle in page space: origin at the top-left corner, y growing downwards. */
  datatype Rect = Rect(x: real, y: real, width: real, height: real)

  /** A recognizer bounding box: unit square, origin at the bottom-left corner, y growing upwards. */
  datatype Box = Box(originX: real, originY: real, width: real, height: real)

  /** The box has non-negative extent and lies inside the unit square. */
  predicate InUnitSquare(b: Box) {
    && 0.0 <= b.originX && 0.0 <= b.width && b.originX + b.width <= 1.0
    && 0.0 <= b.originY && 0.0 <= b.height && b.originY + b.height <= 1.0
  }

  /** The rectangle has non-negative extent and lies inside a page of size `w` by `h`. */
  predicate InPage(r: Rect, w: real, h: real) {
    && 0.0 <= r.x && 0.0 <= r.width && r.x + r.width <= w
    && 0.0 <= r.y && 0.0 <= r.height && r.y + r.height <= h
  }

  /**
    The corrected mapping: scale by the page size and flip the y axis, so that the
    rectangle's top edge is the box's top edge.
  */
  function MapBox(b: Box, w: real, h: real): (r: Rect)
    ensures 0.0 <= w && 0.0 <= h && InUnitSquare(b) ==> InPage(r, w, h)
    ensures r.y + r.height == (1.0 - b.originY) * h
  {
    Rect(b.originX * w, (1.0 - b.originY - b.height) * h, b.width * w, b.height * h)
  }

  /** The inverse mapping, from a page rectangle back to a recognizer box. */
  function UnmapRect(r: Rect, w: real, h: real): Box
    requires w > 0.0 && h > 0.0
  {
    Box(r.x / w, 1.0 - (r.y + r.height) / h, r.width / w, r.height / h)
  }

  /** Scaling by a non-zero factor and dividing by it cancel. */
  lemma ScaleCancels(a: real, w: real)
    requires w != 0.0
    ensures (a * w) / w == a && (a / w) * w == a
  {
  }

  /** Division by a non-zero factor distributes over a sum. */
  lemma DivisionDistributes(a: real, b: real, w: real)
    requires w != 0.0
    ensures (a + b) / w == a / w + b / w
  {
  }

  /** Mapping a box and inverting the result gives the box back. */
  lemma UnmapMapBox(b: Box, w: real, h: real)
    requires w > 0.0 && h > 0.0
    ensures UnmapRect(MapBox(b, w, h), w, h) == b
  {
    var r := MapBox(b, w, h);
    var u := UnmapRect(r, w, h);
    ScaleCancels(b.originX, w);
    ScaleCancels(b.width, w);
    ScaleCancels(b.height, h);
    var top := 1.0 - b.originY;
    ScaleCancels(top, h);
    ScaledSum(top - b.height, b.height, h);
    assert u.originX == b.originX by {
      assert r.x == b.originX * w;
    }
    assert u.width == b.width by {
      assert r.width == b.width * w;
    }
    assert u.height == b.height by {
      assert r.height == b.height * h;
    }
    assert u.originY == b.originY by {
      assert r.y + r.height == top * h;
    }
  }

  /** Scaling distributes over a sum. */
  lemma ScaledSum(a: real, c: real, h: real)
    ensures a * h + c * h == (a + c) * h
  {
  }

  /** Inverting a rectangle and mapping the result gives the rectangle back. */
  lemma MapUnmapRect(r: Rect, w: real, h: real)
    requires w > 0.0 && h > 0.0
    ensures MapBox(UnmapRect(r, w, h), w, h) == r
  {
    var b := UnmapRect(r, w, h);
    ScaleCancels(r.x, w);
    ScaleCancels(r.width, w);
    ScaleCancels(r.height, h);
    ScaleCancels(r.y + r.height, h);
    assert (1.0 - b.originY) * h == r.y + r.height;
    assert (1.0 - b.originY - b.height) * h == (1.0 - b.originY) * h - b.height * h;
  }

  /** On a page of positive size, the mapped rectangle is inside the page exactly when the box is inside the unit square. */
  lemma MapBoxInPageIff(b: Box, w: real, h: real)
    requires w > 0.0 && h > 0.0
    ensures InPage(MapBox(b, w, h), w, h) <==> InUnitSquare(b)
  {
    var r := MapBox(b, w, h);
    if InPage(r, w, h) {
      UnmapMapBox(b, w, h);
      assert b.originX == r.x / w && b.width == r.width / w && b.height == r.height / h;
      assert b.originY == 1.0 - (r.y + r.height) / h;
      DivisionDistributes(r.x, r.width, w);
      DivisionDistributes(r.y, r.height, h);
    }
  }

  /** Two observations on a 1000 by 1400 page: the top edges land at y = 210 and y = 1190. */
  lemma MapBoxExample()
    ensures MapBox(Box(0.1, 0.8, 0.3, 0.05), 1000.0, 1400.0) == Rect(100.0, 210.0, 300.0, 70.0)
    ensures MapBox(Box(0.1, 0.1, 0.3, 0.05), 1000.0, 1400.0) == Rect(100.0, 1190.0, 300.0, 70.0)
  {
  }
}
