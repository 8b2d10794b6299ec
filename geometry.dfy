/** Geometry resolution: the screen polygon of a decoded symbol is its own
    polygon when the decoder reports a non-empty one, and otherwise the four
    corners of its bounding rectangle, in either case moved from the decoded
    region's coordinates to the frame's by the region's origin. */
module Geometry {
  import opened ScanTypes

  /** Every point moved by the offset `o`. */
  function Translate(poly: seq<Point>, o: Point): (r: seq<Point>)
    ensures |r| == |poly|
  {
    seq(|poly|, i requires 0 <= i < |poly| => Point(poly[i].x + o.x, poly[i].y + o.y))
  }

  /** The corners of a rectangle: top-left, top-right, bottom-right,
      bottom-left. */
  function Corners(r: Rect): seq<Point>
  {
    [Point(r.x, r.y), Point(r.x + r.w, r.y), Point(r.x + r.w, r.y + r.h), Point(r.x, r.y + r.h)]
  }

  /** True when the result carries a polygon attribute that is not empty. */
  predicate HasPolygon(res: RawResult)
  {
    res.polygon.Some? && res.polygon.value != []
  }

  /** The symbol's outline in the coordinates of the region it was decoded from. */
  function LocalOutline(res: RawResult): seq<Point>
  {
    if HasPolygon(res) then res.polygon.value else Corners(res.rect)
  }

  /** The symbol's outline in frame coordinates. */
  function AbsolutePolygon(t: Tagged): seq<Point>
  {
    Translate(LocalOutline(t.result), t.origin)
  }

  /** The two cases of the resolution, point by point: a non-empty polygon is
      shifted point by point by the origin (ox, oy); without one, the outline
      is the rectangle's corners (rx+ox, ry+oy), (rx+rw+ox, ry+oy),
      (rx+rw+ox, ry+rh+oy), (rx+ox, ry+rh+oy), in that order. */
  lemma AbsolutePolygonCases(t: Tagged)
    ensures var r, o := AbsolutePolygon(t), t.origin;
      if HasPolygon(t.result) then
        var p := t.result.polygon.value;
        |r| == |p| && forall i :: 0 <= i < |p| ==> r[i] == Point(p[i].x + o.x, p[i].y + o.y)
      else
        var b := t.result.rect;
        r == [Point(b.x + o.x, b.y + o.y), Point(b.x + b.w + o.x, b.y + o.y),
              Point(b.x + b.w + o.x, b.y + b.h + o.y), Point(b.x + o.x, b.y + b.h + o.y)]
  {
  }

  /** Moving back by the opposite offset undoes a translation. */
  lemma TranslateRoundTrip(poly: seq<Point>, o: Point)
    ensures Translate(Translate(poly, o), Point(-o.x, -o.y)) == poly
  {
  }

  /** The frame-coordinate polygon determines the region-local outline: moving
      it back by the origin gives the decoder's own polygon, or the corners of
      its rectangle. */
  lemma AbsolutePolygonUndoesOrigin(t: Tagged)
    ensures Translate(AbsolutePolygon(t), Point(-t.origin.x, -t.origin.y))
         == (if HasPolygon(t.result) then t.result.polygon.value else Corners(t.result.rect))
  {
  }

  /** A resolved polygon is never empty, because a missing or empty decoder
      polygon falls back to the rectangle, and a polygon built from the
      rectangle has exactly four points. */
  lemma AbsolutePolygonNonEmpty(t: Tagged)
    ensures |AbsolutePolygon(t)| > 0
    ensures !HasPolygon(t.result) ==> |AbsolutePolygon(t)| == 4
  {
  }
}
