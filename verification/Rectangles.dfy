/** Rectangles as sets of points, and what it is to measure an overlap. */
module Rectangles {

  datatype Rectangle = Rectangle(left: real, top: real, right: real, bottom: real) {
    /** The point lies in the rectangle or on its edge. */
    predicate Has(x: real, y: real) {
      left <= x <= right && top <= y <= bottom
    }

    predicate HasInside(x: real, y: real) {
      left < x < right && top < y < bottom
    }

    function Area(): real {
      (right - left) * (bottom - top)
    }
  }

  /** The points of c are exactly those common to a and b. */
  ghost predicate IsCommon(c: Rectangle, a: Rectangle, b: Rectangle) {
    forall x: real, y: real :: c.Has(x, y) <==> a.Has(x, y) && b.Has(x, y)
  }

  /** m is the area that a and b have in common. */
  ghost predicate Measures(m: real, a: Rectangle, b: Rectangle) {
    && m >= 0.0
    && (m > 0.0 ==> exists c :: IsCommon(c, a, b) && c.left < c.right && c.top < c.bottom && m == c.Area())
    && (m == 0.0 ==> forall x: real, y: real :: !(a.HasInside(x, y) && b.HasInside(x, y)))
  }

  lemma SamePointsSameEdges(c: Rectangle, d: Rectangle)
    requires c.left <= c.right && c.top <= c.bottom && d.left <= d.right && d.top <= d.bottom
    requires forall x: real, y: real :: c.Has(x, y) <==> d.Has(x, y)
    ensures c == d
  {
    assert c.Has(c.left, c.top) && c.Has(c.right, c.bottom);
    assert d.Has(d.left, d.top) && d.Has(d.right, d.bottom);
  }

  lemma InsideOfCommon(c: Rectangle, a: Rectangle, b: Rectangle)
    requires IsCommon(c, a, b) && c.left < c.right && c.top < c.bottom
    ensures exists x: real, y: real :: a.HasInside(x, y) && b.HasInside(x, y)
  {
    assert c.Has(c.left, c.top) && c.Has(c.right, c.bottom);
    var x, y := (c.left + c.right) / 2.0, (c.top + c.bottom) / 2.0;
    assert a.HasInside(x, y) && b.HasInside(x, y);
  }

  /** There is only one such number. */
  lemma MeasureIsUnique(m: real, n: real, a: Rectangle, b: Rectangle)
    requires Measures(m, a, b) && Measures(n, a, b)
    ensures m == n
  {
    if m > 0.0 {
      var c :| IsCommon(c, a, b) && c.left < c.right && c.top < c.bottom && m == c.Area();
      InsideOfCommon(c, a, b);
      var d :| IsCommon(d, a, b) && d.left < d.right && d.top < d.bottom && n == d.Area();
      forall x: real, y: real ensures c.Has(x, y) <==> d.Has(x, y) {
      }
      SamePointsSameEdges(c, d);
    } else if n > 0.0 {
      var d :| IsCommon(d, a, b) && d.left < d.right && d.top < d.bottom && n == d.Area();
      InsideOfCommon(d, a, b);
    }
  }

  function Smaller(a: real, b: real): real { if a < b then a else b }

  function Larger(a: real, b: real): real { if a > b then a else b }

  /** The area between the inner edges. */
  function Shared(a: Rectangle, b: Rectangle): real {
    var w, h := Smaller(a.right, b.right) - Larger(a.left, b.left), Smaller(a.bottom, b.bottom) - Larger(a.top, b.top);
    if w > 0.0 && h > 0.0 then w * h else 0.0
  }

  lemma ProductIsPositive(w: real, h: real)
    requires w > 0.0 && h > 0.0
    ensures w * h > 0.0
  {
  }

  /** The area between the inner edges is the common area. */
  lemma SharedMeasures(a: Rectangle, b: Rectangle)
    ensures Measures(Shared(a, b), a, b)
  {
    var c := Rectangle(Larger(a.left, b.left), Larger(a.top, b.top), Smaller(a.right, b.right), Smaller(a.bottom, b.bottom));
    var w, h := c.right - c.left, c.bottom - c.top;
    assert IsCommon(c, a, b);
    if w > 0.0 && h > 0.0 {
      ProductIsPositive(w, h);
      assert Shared(a, b) == c.Area() > 0.0;
    } else {
      forall x: real, y: real ensures !(a.HasInside(x, y) && b.HasInside(x, y)) {
      }
    }
  }

  lemma SharedIs(a: Rectangle, b: Rectangle, w: real, h: real)
    requires w == Smaller(a.right, b.right) - Larger(a.left, b.left)
    requires h == Smaller(a.bottom, b.bottom) - Larger(a.top, b.top)
    ensures Shared(a, b) == if w > 0.0 && h > 0.0 then w * h else 0.0
  {
  }

  /** r is the common area over the area both cover together, and 0 without a common area. */
  ghost predicate IsIou(r: real, a: Rectangle, b: Rectangle) {
    exists m :: Measures(m, a, b) && IsRatio(r, m, a.Area() + b.Area() - m)
  }

  predicate IsRatio(r: real, part: real, whole: real) {
    if part == 0.0 then r == 0.0 else whole > 0.0 && r == part / whole
  }
}
