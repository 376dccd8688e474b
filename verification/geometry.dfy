/**
 Axis-aligned rectangles in canvas coordinates (x grows to the right, y grows
 downwards) and the strict overlap test the game uses for collisions.
 */
module Geometry {

  /** A rectangle given by its top-left corner and its extent. */
  datatype Rect = Rect(x: real, y: real, width: real, height: real)

  /** The point (px, py) lies strictly inside `r` (not on its border). */
  predicate Inside(r: Rect, px: real, py: real)
  {
    r.x < px < r.x + r.width && r.y < py < r.y + r.height
  }

  /** Strict AABB overlap: both the horizontal and the vertical extents overlap
      with positive length; rectangles that only touch do not overlap. */
  predicate Overlaps(a: Rect, b: Rect)
  {
    && a.x < b.x + b.width
    && a.x + a.width > b.x
    && a.y < b.y + b.height
    && a.y + a.height > b.y
  }

  function Min(a: real, b: real): real { if a <= b then a else b }
  function Max(a: real, b: real): real { if a <= b then b else a }

  /** The overlap test agrees with the geometric notion it stands for: two
      rectangles of positive size overlap exactly when some point lies
      strictly inside both. */
  lemma OverlapsIffSharedInteriorPoint(a: Rect, b: Rect)
    requires a.width > 0.0 && a.height > 0.0 && b.width > 0.0 && b.height > 0.0
    ensures Overlaps(a, b) <==> exists px: real, py: real :: Inside(a, px, py) && Inside(b, px, py)
  {
    if Overlaps(a, b) {
      var px := (Max(a.x, b.x) + Min(a.x + a.width, b.x + b.width)) / 2.0;
      var py := (Max(a.y, b.y) + Min(a.y + a.height, b.y + b.height)) / 2.0;
      assert Inside(a, px, py) && Inside(b, px, py);
    }
  }

  /** Overlap does not depend on which rectangle is named first. */
  lemma OverlapsSymmetric(a: Rect, b: Rect)
    ensures Overlaps(a, b) <==> Overlaps(b, a)
  {
  }

  /** Rectangles that share only a vertical or a horizontal edge do not collide. */
  lemma TouchingRectsDoNotOverlap(a: Rect, b: Rect)
    requires a.x + a.width == b.x || b.x + b.width == a.x || a.y + a.height == b.y || b.y + b.height == a.y
    ensures !Overlaps(a, b)
  {
  }

  /** A rectangle overlaps itself exactly when it has positive area. */
  lemma OverlapsSelfIffPositiveArea(a: Rect)
    ensures Overlaps(a, a) <==> a.width > 0.0 && a.height > 0.0
  {
  }
}
