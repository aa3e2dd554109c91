/**
  Integer rectangles and the two java.awt.geom.Rectangle2D tests the validator
  applies to them (`intersects` and `contains`). Element geometry is always
  integer-valued, so the double-precision arithmetic of Rectangle2D is exact
  on these inputs and is written here over `int`.
 */
module Rectangles {

  /** A rectangle as the validator reads it from an element: location and size in pixels. */
  datatype Rect = Rect(x: int, y: int, width: int, height: int) {

    /** The x coordinate of the right edge (the source's `getCornerX`). */
    function Right(): int { x + width }

    /** The y coordinate of the bottom edge (the source's `getCornerY`). */
    function Bottom(): int { y + height }

    /** Rectangle2D.isEmpty: a side that is zero or negative. */
    predicate IsEmpty() { width <= 0 || height <= 0 }
  }

  /**
    `a.intersects(b)`: false when either rectangle is empty, otherwise the
    strict comparisons of Rectangle2D.intersects, so that edges that only
    touch do not intersect.
   */
  predicate Intersects(a: Rect, b: Rect)
    // read as intervals: both rectangles have area and the overlap of their
    // x ranges and of their y ranges is each of positive length
    ensures Intersects(a, b) <==>
              && !a.IsEmpty() && !b.IsEmpty()
              && Max(a.x, b.x) < Min(a.Right(), b.Right())
              && Max(a.y, b.y) < Min(a.Bottom(), b.Bottom())
  {
    && !a.IsEmpty() && !b.IsEmpty()
    && b.x + b.width > a.x && b.y + b.height > a.y
    && b.x < a.x + a.width && b.y < a.y + a.height
  }

  /**
    `outer.contains(inner)`: false when either rectangle is empty, otherwise
    boundary-inclusive containment of all four edges.
   */
  predicate Contains(outer: Rect, inner: Rect)
    // a contained rectangle overlaps its container, and the area they share is all of the inner one
    ensures Contains(outer, inner) ==> Intersects(outer, inner)
    ensures Contains(outer, inner) ==> SharedArea(outer, inner) == inner.width * inner.height
  {
    && !outer.IsEmpty() && !inner.IsEmpty()
    && inner.x >= outer.x && inner.y >= outer.y
    && inner.x + inner.width <= outer.x + outer.width
    && inner.y + inner.height <= outer.y + outer.height
  }

  function Min(a: int, b: int): int { if a <= b then a else b }
  function Max(a: int, b: int): int { if a <= b then b else a }

  /**
    The area two rectangles share, computed independently of Intersects from
    the overlap of their x and y intervals.
   */
  function SharedArea(a: Rect, b: Rect): nat
  {
    var w := Min(a.Right(), b.Right()) - Max(a.x, b.x);
    var h := Min(a.Bottom(), b.Bottom()) - Max(a.y, b.y);
    if w > 0 && h > 0 then w * h else 0
  }

  /** Overlap is exactly "the shared area is positive", for every pair of rectangles, empty ones included. */
  lemma IntersectsIffSharedArea(a: Rect, b: Rect)
    ensures Intersects(a, b) <==> SharedArea(a, b) > 0
  {
    var w := Min(a.Right(), b.Right()) - Max(a.x, b.x);
    var h := Min(a.Bottom(), b.Bottom()) - Max(a.y, b.y);
    if w > 0 && h > 0 {
      assert w * h > 0 by { PositiveProduct(w, h); }
    }
  }

  lemma PositiveProduct(w: int, h: int)
    requires w > 0 && h > 0
    ensures w * h > 0
  {
  }

  /** Rectangles that only share an edge (or a corner) do not overlap, in either order. */
  lemma TouchingRectanglesDoNotOverlap(a: Rect, b: Rect)
    requires a.Right() == b.x || b.Right() == a.x || a.Bottom() == b.y || b.Bottom() == a.y
    ensures !Intersects(a, b) && !Intersects(b, a)
    ensures SharedArea(a, b) == 0
  {
  }

  lemma IntersectsIsSymmetric(a: Rect, b: Rect)
    ensures Intersects(a, b) <==> Intersects(b, a)
  {
  }

  /** Containment is reflexive exactly on the non-empty rectangles. */
  lemma ContainsReflexive(a: Rect)
    ensures Contains(a, a) <==> !a.IsEmpty()
  {
  }

  /** Mutual containment means the two rectangles are the same. */
  lemma ContainsAntisymmetric(a: Rect, b: Rect)
    requires Contains(a, b) && Contains(b, a)
    ensures a == b
  {
  }

  lemma ContainsTransitive(a: Rect, b: Rect, c: Rect)
    requires Contains(a, b) && Contains(b, c)
    ensures Contains(a, c)
  {
  }

  /** A rectangle that contains another also overlaps it. */
  lemma ContainsImpliesIntersects(outer: Rect, inner: Rect)
    requires Contains(outer, inner)
    ensures Intersects(outer, inner)
  {
  }
}
