/**
 * Rectangle arithmetic used by the padded cells: the frame they hand to the
 * toolkit when editing, selecting or drawing is the cell's frame with the
 * trailing padding (the toggle button's footprint) taken off.
 */
module Geometry {

  datatype Point = Point(x: real, y: real)
  datatype Size = Size(width: real, height: real)
  datatype Rect = Rect(origin: Point, size: Size)

  /** The cell's user-interface layout direction. */
  datatype LayoutDirection = LeftToRight | RightToLeft

  /** Horizontal space the padded cells keep free for the toggle button. */
  const RightPadding: real := 32.0

  function MinX(r: Rect): real { r.origin.x }
  function MaxX(r: Rect): real { r.origin.x + r.size.width }

  /** The edge text starts from: the left edge left-to-right, the right edge right-to-left. */
  function LeadingEdge(r: Rect, dir: LayoutDirection): real {
    if dir == LeftToRight then MinX(r) else MaxX(r)
  }

  /** The edge text runs towards, where the toggle button sits. */
  function TrailingEdge(r: Rect, dir: LayoutDirection): real {
    if dir == LeftToRight then MaxX(r) else MinX(r)
  }

  /**
   * The padded cells' frame adjustment. The width shrinks by the padding; the
   * origin moves by the padding only right-to-left. Equivalently: the leading
   * edge stays where it was and the trailing edge moves inwards by the padding.
   * There is no clamping, so a frame narrower than the padding gets a negative width.
   */
  function Tweak(dir: LayoutDirection, rect: Rect): (r: Rect)
    ensures r.size.width == rect.size.width - RightPadding
    ensures r.origin.y == rect.origin.y && r.size.height == rect.size.height
    ensures r.origin.x != rect.origin.x <==> dir == RightToLeft
    ensures LeadingEdge(r, dir) == LeadingEdge(rect, dir)
    ensures dir == LeftToRight ==> TrailingEdge(r, dir) == TrailingEdge(rect, dir) - RightPadding
    ensures dir == RightToLeft ==> TrailingEdge(r, dir) == TrailingEdge(rect, dir) + RightPadding
  {
    var width := rect.size.width - RightPadding;
    var x := if dir == RightToLeft then rect.origin.x + RightPadding else rect.origin.x;
    Rect(Point(x, rect.origin.y), Size(width, rect.size.height))
  }
}
