/**
 * Plane geometry used by the detector: floating-point and integer rectangles
 * (android.graphics.RectF and Rect), the union of two rectangles, an affine
 * transform (android.graphics.Matrix without perspective) applied to a
 * rectangle, and rounding of a rectangle to integers.
 *
 * Coordinates are reals; a float of the source stands for the real it denotes.
 */
module Geometry {

  /** A rectangle with real coordinates (RectF). */
  datatype RectF = RectF(left: real, top: real, right: real, bottom: real)

  /** A rectangle with integer coordinates (Rect). */
  datatype Rect = Rect(left: int, top: int, right: int, bottom: int)

  /** The rectangle `new RectF(0, 0, 0, 0)`. */
  const EmptyF := RectF(0.0, 0.0, 0.0, 0.0)

  /** RectF's notion of a rectangle with area: `left < right && top < bottom`. */
  predicate IsNonEmpty(r: RectF) {
    r.left < r.right && r.top < r.bottom
  }

  /** Rect.isEmpty(): `left >= right || top >= bottom`. */
  predicate IsEmptyRect(r: Rect) {
    r.left >= r.right || r.top >= r.bottom
  }

  /** Every edge of `inner` lies on or inside the edges of `outer`. */
  predicate Encloses(outer: RectF, inner: RectF) {
    outer.left <= inner.left && outer.top <= inner.top &&
    inner.right <= outer.right && inner.bottom <= outer.bottom
  }

  /** The point (x, y) lies in the closed rectangle `r`. */
  predicate ContainsPoint(r: RectF, x: real, y: real) {
    r.left <= x <= r.right && r.top <= y <= r.bottom
  }

  function Min(a: real, b: real): real { if a <= b then a else b }
  function Max(a: real, b: real): real { if a <= b then b else a }

  /**
   * RectF.union(left, top, right, bottom): a box without area is ignored;
   * an accumulator without area is replaced by the box; otherwise the
   * accumulator grows to the smallest rectangle enclosing both.
   */
  function Union(acc: RectF, box: RectF): (r: RectF)
    ensures !IsNonEmpty(box) ==> r == acc
    ensures IsNonEmpty(box) ==> IsNonEmpty(r) && Encloses(r, box)
    ensures IsNonEmpty(box) && !IsNonEmpty(acc) ==> r == box
    ensures IsNonEmpty(box) && IsNonEmpty(acc) ==> Encloses(r, acc)
    ensures IsNonEmpty(box) ==>
      (r.left == acc.left || r.left == box.left) && (r.top == acc.top || r.top == box.top) &&
      (r.right == acc.right || r.right == box.right) && (r.bottom == acc.bottom || r.bottom == box.bottom)
  {
    if !IsNonEmpty(box) then acc
    else if IsNonEmpty(acc) then
      RectF(Min(acc.left, box.left), Min(acc.top, box.top), Max(acc.right, box.right), Max(acc.bottom, box.bottom))
    else box
  }

  /** When both have area, the union is the smallest rectangle enclosing both. */
  lemma UnionIsSmallest(acc: RectF, box: RectF, bound: RectF)
    requires IsNonEmpty(acc) && IsNonEmpty(box)
    requires Encloses(bound, acc) && Encloses(bound, box)
    ensures Encloses(bound, Union(acc, box))
  {
  }

  /**
   * An affine map of the plane, with the entries of android.graphics.Matrix
   * (MSCALE_X, MSKEW_X, MTRANS_X, MSKEW_Y, MSCALE_Y, MTRANS_Y); the
   * perspective row is always (0, 0, 1) here.
   */
  datatype Affine = Affine(scaleX: real, skewX: real, transX: real,
                           skewY: real, scaleY: real, transY: real)

  /** `new Matrix()`. */
  const Identity := Affine(1.0, 0.0, 0.0, 0.0, 1.0, 0.0)

  function MapX(m: Affine, x: real, y: real): real {
    m.scaleX * x + m.skewX * y + m.transX
  }

  function MapY(m: Affine, x: real, y: real): real {
    m.skewY * x + m.scaleY * y + m.transY
  }

  function Min4(a: real, b: real, c: real, d: real): real { Min(Min(a, b), Min(c, d)) }
  function Max4(a: real, b: real, c: real, d: real): real { Max(Max(a, b), Max(c, d)) }

  /**
   * Matrix.mapRect(RectF): the four corners of `r` are mapped and the
   * result is the axis-aligned bounding box of the mapped corners.
   */
  function MapRect(m: Affine, r: RectF): (q: RectF)
    ensures q.left <= q.right && q.top <= q.bottom
  {
    RectF(Min4(MapX(m, r.left, r.top), MapX(m, r.right, r.top), MapX(m, r.right, r.bottom), MapX(m, r.left, r.bottom)),
          Min4(MapY(m, r.left, r.top), MapY(m, r.right, r.top), MapY(m, r.right, r.bottom), MapY(m, r.left, r.bottom)),
          Max4(MapX(m, r.left, r.top), MapX(m, r.right, r.top), MapX(m, r.right, r.bottom), MapX(m, r.left, r.bottom)),
          Max4(MapY(m, r.left, r.top), MapY(m, r.right, r.top), MapY(m, r.right, r.bottom), MapY(m, r.left, r.bottom)))
  }

  /** Multiplying by a constant is monotone (antitone for a negative constant). */
  lemma ScaleBetween(a: real, lo: real, v: real, hi: real)
    requires lo <= v <= hi
    ensures Min(a * lo, a * hi) <= a * v <= Max(a * lo, a * hi)
  {
    if a >= 0.0 {
      assert a * (v - lo) >= 0.0;
      assert a * (hi - v) >= 0.0;
    } else {
      assert a * (v - lo) <= 0.0;
      assert a * (hi - v) <= 0.0;
    }
  }

  /** A sum of two terms, each between two values, lies between the extreme corner sums. */
  lemma SumBetween(a1: real, a2: real, b1: real, b2: real, u: real, v: real, c: real)
    requires Min(a1, a2) <= u <= Max(a1, a2) && Min(b1, b2) <= v <= Max(b1, b2)
    ensures Min4(a1 + b1 + c, a2 + b1 + c, a2 + b2 + c, a1 + b2 + c) <= u + v + c
    ensures u + v + c <= Max4(a1 + b1 + c, a2 + b1 + c, a2 + b2 + c, a1 + b2 + c)
  {
  }

  /**
   * One coordinate of an affine map, a*x + b*y + c, at a point of the box
   * [lo1, hi1] x [lo2, hi2], lies between its smallest and largest value at
   * the box's corners (p1 to p4, in the corner order of MapRect).
   */
  lemma AffineCoordinateBetween(a: real, b: real, c: real, lo1: real, x: real, hi1: real, lo2: real, y: real, hi2: real,
                                p1: real, p2: real, p3: real, p4: real, v: real)
    requires lo1 <= x <= hi1 && lo2 <= y <= hi2
    requires p1 == a * lo1 + b * lo2 + c && p2 == a * hi1 + b * lo2 + c
    requires p3 == a * hi1 + b * hi2 + c && p4 == a * lo1 + b * hi2 + c
    requires v == a * x + b * y + c
    ensures Min4(p1, p2, p3, p4) <= v <= Max4(p1, p2, p3, p4)
  {
    ScaleBetween(a, lo1, x, hi1);
    ScaleBetween(b, lo2, y, hi2);
    SumBetween(a * lo1, a * hi1, b * lo2, b * hi2, a * x, b * y, c);
  }

  lemma MapXBetween(m: Affine, r: RectF, x: real, y: real)
    requires ContainsPoint(r, x, y)
    ensures Min4(MapX(m, r.left, r.top), MapX(m, r.right, r.top), MapX(m, r.right, r.bottom), MapX(m, r.left, r.bottom)) <= MapX(m, x, y)
    ensures MapX(m, x, y) <= Max4(MapX(m, r.left, r.top), MapX(m, r.right, r.top), MapX(m, r.right, r.bottom), MapX(m, r.left, r.bottom))
  {
    AffineCoordinateBetween(m.scaleX, m.skewX, m.transX, r.left, x, r.right, r.top, y, r.bottom,
                            MapX(m, r.left, r.top), MapX(m, r.right, r.top), MapX(m, r.right, r.bottom),
                            MapX(m, r.left, r.bottom), MapX(m, x, y));
  }

  lemma MapYBetween(m: Affine, r: RectF, x: real, y: real)
    requires ContainsPoint(r, x, y)
    ensures Min4(MapY(m, r.left, r.top), MapY(m, r.right, r.top), MapY(m, r.right, r.bottom), MapY(m, r.left, r.bottom)) <= MapY(m, x, y)
    ensures MapY(m, x, y) <= Max4(MapY(m, r.left, r.top), MapY(m, r.right, r.top), MapY(m, r.right, r.bottom), MapY(m, r.left, r.bottom))
  {
    AffineCoordinateBetween(m.skewY, m.scaleY, m.transY, r.left, x, r.right, r.top, y, r.bottom,
                            MapY(m, r.left, r.top), MapY(m, r.right, r.top), MapY(m, r.right, r.bottom),
                            MapY(m, r.left, r.bottom), MapY(m, x, y));
  }

  /** The image of a point of `r` lies in MapRect(m, r), for every affine m. */
  lemma MapRectContains(m: Affine, r: RectF, x: real, y: real)
    requires ContainsPoint(r, x, y)
    ensures ContainsPoint(MapRect(m, r), MapX(m, x, y), MapY(m, x, y))
  {
    MapXBetween(m, r, x, y);
    MapYBetween(m, r, x, y);
  }

  /** The identity matrix maps a well-ordered rectangle to itself. */
  lemma MapRectIdentity(r: RectF)
    requires r.left <= r.right && r.top <= r.bottom
    ensures MapRect(Identity, r) == r
  {
  }

  /**
   * Rounding to the nearest integer, halves upward: floor(x + 1/2), the
   * rule of RectF.round.
   */
  function Round(x: real): (n: int)
    ensures x - 0.5 < n as real <= x + 0.5
  {
    (x + 0.5).Floor
  }

  /** Rounding is monotone. */
  lemma RoundMonotone(x: real, y: real)
    requires x <= y
    ensures Round(x) <= Round(y)
  {
  }

  /** Rounding leaves an integer unchanged. */
  lemma RoundInteger(n: int)
    ensures Round(n as real) == n
  {
  }

  /** RectF.round(Rect): each edge rounded on its own. */
  function RoundRect(r: RectF): Rect
  {
    Rect(Round(r.left), Round(r.top), Round(r.right), Round(r.bottom))
  }
}
