/**
 * One row of a detector's result table (seven columns) and the
 * intersection-over-union of two rows' boxes, on real numbers.
 */
module Detections {

  /**
   * Columns 0-3: box corners (x1, y1, x2, y2); column 4: score;
   * column 5: class (a float in the tensor); column 6: carried through untouched.
   */
  datatype Row = Row(x1: real, y1: real, x2: real, y2: real, score: real, cls: real, extra: real)

  function Max(a: real, b: real): real { if a >= b then a else b }

  function Min(a: real, b: real): real { if a <= b then a else b }

  /** Box area as torchvision computes it: (x2 - x1) * (y2 - y1), not clamped. */
  function Area(b: Row): real { (b.x2 - b.x1) * (b.y2 - b.y1) }

  /** Width and height of the overlap of two boxes, clamped at zero. */
  function OverlapWidth(a: Row, b: Row): (w: real)
    ensures w >= 0.0
  {
    Max(0.0, Min(a.x2, b.x2) - Max(a.x1, b.x1))
  }

  function OverlapHeight(a: Row, b: Row): (h: real)
    ensures h >= 0.0
  {
    Max(0.0, Min(a.y2, b.y2) - Max(a.y1, b.y1))
  }

  /** Area of the overlap of the two boxes. */
  function Intersection(a: Row, b: Row): (r: real)
    ensures r >= 0.0
  {
    OverlapWidth(a, b) * OverlapHeight(a, b)
  }

  /**
   * Intersection over union. Where the union is not positive torchvision
   * divides anyway (a NaN or a non-positive number); 0 gives the same
   * outcome in every comparison "IoU > t" with t >= 0.
   */
  function IoU(a: Row, b: Row): (r: real)
    ensures r >= 0.0
  {
    var union := Area(a) + Area(b) - Intersection(a, b);
    if union > 0.0 then Intersection(a, b) / union else 0.0
  }

  /** The box columns of two rows agree; score, class and extra may differ. */
  predicate SameBox(a: Row, b: Row)
  {
    a.x1 == b.x1 && a.y1 == b.y1 && a.x2 == b.x2 && a.y2 == b.y2
  }

  /** A box whose corners are in order. */
  predicate Ordered(b: Row)
  {
    b.x1 <= b.x2 && b.y1 <= b.y2
  }

  /** Boxes side by side or one above the other do not overlap at all. */
  lemma IoUApart(a: Row, b: Row)
    requires a.x2 <= b.x1 || b.x2 <= a.x1 || a.y2 <= b.y1 || b.y2 <= a.y1
    ensures IoU(a, b) == 0.0
  {
    assert OverlapWidth(a, b) == 0.0 || OverlapHeight(a, b) == 0.0;
    assert Intersection(a, b) == 0.0;
  }

  lemma IoUSymmetric(a: Row, b: Row)
    ensures IoU(a, b) == IoU(b, a)
  {
    assert Intersection(a, b) == Intersection(b, a);
  }

  /** Overlap looks at the box columns only: class and score play no part. */
  lemma IoUReadsBoxOnly(a: Row, b: Row, a': Row, b': Row)
    requires SameBox(a, a') && SameBox(b, b')
    ensures IoU(a, b) == IoU(a', b')
  {
    assert Area(a) == Area(a') && Area(b) == Area(b');
    assert Intersection(a, b) == Intersection(a', b');
  }

  lemma ProductWithin(w: real, h: real, wMax: real, hMax: real)
    requires 0.0 <= w <= wMax && 0.0 <= h <= hMax
    ensures w * h <= wMax * hMax
  {
    assert w * h <= wMax * h;
    assert wMax * h <= wMax * hMax;
  }

  lemma IntersectionWithin(a: Row, b: Row)
    requires Ordered(a) && Ordered(b)
    ensures Intersection(a, b) <= Area(a) && Intersection(a, b) <= Area(b)
  {
    ProductWithin(OverlapWidth(a, b), OverlapHeight(a, b), a.x2 - a.x1, a.y2 - a.y1);
    ProductWithin(OverlapWidth(a, b), OverlapHeight(a, b), b.x2 - b.x1, b.y2 - b.y1);
  }

  lemma DivAtMostOne(x: real, y: real)
    requires 0.0 <= x <= y && 0.0 < y
    ensures x / y <= 1.0
  {
    assert x / y * y == x;
  }

  /** For boxes with ordered corners the overlap lies in [0, 1]. */
  lemma IoUAtMostOne(a: Row, b: Row)
    requires Ordered(a) && Ordered(b)
    ensures 0.0 <= IoU(a, b) <= 1.0
  {
    IntersectionWithin(a, b);
    var i := Intersection(a, b);
    var union := Area(a) + Area(b) - i;
    if union > 0.0 {
      assert i <= union;
      DivAtMostOne(i, union);
    }
  }

}
