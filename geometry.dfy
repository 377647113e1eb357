/**
 * Integer screen geometry with the conventions of Qt 5's QPoint, QSize and QRect.
 *
 * A QRect stores its corners (x1, y1) and (x2, y2) inclusively, so
 * right() == left() + width() - 1 and bottom() == top() + height() - 1.
 * The default-constructed rectangle is the null rectangle (0, 0, -1, -1).
 * Arithmetic is on unbounded integers; 32-bit overflow is not modelled.
 */
module QtGeometry {

  datatype Point = Point(x: int, y: int)

  datatype Size = Size(width: int, height: int)

  /** C++ `n / 2` on int: the quotient is truncated toward zero. */
  function HalfTowardZero(n: int): (q: int)
    ensures n >= 0 ==> 0 <= n - 2 * q <= 1
    ensures n < 0 ==> -1 <= n - 2 * q <= 0
  {
    if n >= 0 then n / 2 else -((-n) / 2)
  }

  datatype Rect = Rect(x1: int, y1: int, x2: int, y2: int) {

    function Left(): int { x1 }
    function Top(): int { y1 }
    function Right(): int { x2 }
    function Bottom(): int { y2 }
    function Width(): int { x2 - x1 + 1 }
    function Height(): int { y2 - y1 + 1 }
    function TopLeft(): Point { Point(x1, y1) }
    function GetSize(): Size { Size(Width(), Height()) }

    /** QRect::isValid: the left edge is not right of the right edge, nor the top below the bottom. */
    predicate IsValid() { x1 <= x2 && y1 <= y2 }

    /** QRect::isEmpty: the rectangle has no area. */
    predicate IsEmpty() { x1 > x2 || y1 > y2 }

    /**
     * QRect::center().x(): the midpoint of left and right, rounded toward zero.
     * For a valid rectangle it lies between the edges, at most one unit off the middle.
     */
    function CenterX(): (c: int)
      ensures x1 <= x2 ==> x1 <= c <= x2
      ensures x1 <= x2 ==> -1 <= (c - x1) - (x2 - c) <= 1
    {
      HalfTowardZero(Left() + Right())
    }

    /**
     * QRect::contains(QPoint) with proper == false: inclusive on all four edges.
     * Like Qt, a rectangle whose right edge lies more than one unit left of its
     * left edge (a negative width) is read with its edges swapped, and likewise vertically.
     */
    predicate Contains(p: Point)
    {
      var (l, r) := if x2 < x1 - 1 then (x2, x1) else (x1, x2);
      var (t, b) := if y2 < y1 - 1 then (y2, y1) else (y1, y2);
      l <= p.x <= r && t <= p.y <= b
    }
  }

  /** The default QRect(): the null rectangle, which is neither valid nor non-empty. */
  const NullRect: Rect := Rect(0, 0, -1, -1)

  /** QRect(const QPoint &topLeft, const QSize &size). */
  function FromTopLeftSize(p: Point, s: Size): (r: Rect)
    ensures r.TopLeft() == p && r.GetSize() == s
  {
    Rect(p.x, p.y, p.x + s.width - 1, p.y + s.height - 1)
  }

  /** Rebuilding a rectangle from its top-left corner and its size gives it back unchanged. */
  lemma RebuildIsIdentity(r: Rect)
    ensures FromTopLeftSize(r.TopLeft(), r.GetSize()) == r
  {
  }

  /** On a valid rectangle, contains is exactly the inclusive bounds check on both axes. */
  lemma ContainsValid(r: Rect, p: Point)
    requires r.IsValid()
    ensures r.Contains(p) <==> r.x1 <= p.x <= r.x2 && r.y1 <= p.y <= r.y2
  {
  }

  /** A rectangle of zero width or zero height contains no point; in particular the null rectangle contains none. */
  lemma ZeroSizeContainsNothing(r: Rect, p: Point)
    requires r.Width() == 0 || r.Height() == 0
    ensures !r.Contains(p)
  {
  }

  /** An invalid rectangle may still contain points: one with a negative width, read with its edges swapped. */
  lemma InvalidRectMayContain()
    ensures !Rect(5, 0, 2, 3).IsValid() && Rect(5, 0, 2, 3).Contains(Point(3, 1))
  {
  }
}
