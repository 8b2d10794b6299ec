/** The ROI admission filter of `find_rois`: of the external contours found
    in a frame, keep the bounding rectangles of those that are large enough,
    not too thin and not nearly as large as the frame itself. Edge detection,
    dilation and contour extraction happen before this filter and are given
    to it as the contour sequence. */
module RoiDetector {
  import opened ScanTypes

  /** Smallest admitted contour area, in square pixels. */
  const MinArea: real := 2000.0
  /** Smallest admitted bounding-box width and height, in pixels. */
  const MinSide: int := 40

  /** The admission test for one contour in a frame of width `w` and height
      `h`. A bounding box wider than 0.9·w or taller than 0.9·h is refused;
      the 0.9 factor is compared exactly, as 10·side against 9·dimension. */
  predicate Admitted(c: Contour, w: int, h: int)
  {
    && c.area >= MinArea
    && c.bounds.w >= MinSide && c.bounds.h >= MinSide
    && 10 * c.bounds.w <= 9 * w && 10 * c.bounds.h <= 9 * h
  }

  /** The bounding rectangles of the admitted contours, in contour order. */
  function AdmittedRects(cs: seq<Contour>, w: int, h: int): seq<Rect>
    decreases |cs|
  {
    if cs == [] then []
    else
      var front := AdmittedRects(cs[..|cs| - 1], w, h);
      if Admitted(cs[|cs| - 1], w, h) then front + [cs[|cs| - 1].bounds] else front
  }

  /** The positions, in `cs`, of the admitted contours, in increasing order. */
  function AdmittedIndices(cs: seq<Contour>, w: int, h: int): seq<nat>
    decreases |cs|
  {
    if cs == [] then []
    else
      var front := AdmittedIndices(cs[..|cs| - 1], w, h);
      if Admitted(cs[|cs| - 1], w, h) then front + [|cs| - 1] else front
  }

  /** `find_rois`: walks the contours in order and appends the bounding
      rectangle of each one that passes every threshold. */
  method FindRois(contours: seq<Contour>, w: int, h: int) returns (rois: seq<Rect>)
    ensures rois == AdmittedRects(contours, w, h)
  {
    rois := [];
    for i := 0 to |contours|
      invariant rois == AdmittedRects(contours[..i], w, h)
    {
      assert contours[..i + 1][..i] == contours[..i];
      var cnt := contours[i];
      if cnt.area < MinArea {
        continue;
      }
      var r := cnt.bounds;
      if r.w < MinSide || r.h < MinSide {
        continue;
      }
      if 10 * r.w > 9 * w || 10 * r.h > 9 * h {
        continue;
      }
      rois := rois + [r];
    }
    assert contours[..|contours|] == contours;
  }

  /** The ROIs are exactly the admitted contours' rectangles, each taken once
      and in the order of the contours: the k-th ROI is the rectangle of the
      contour at position ix[k], the positions strictly increase, and a
      position occurs in ix exactly when its contour passes the filter. */
  lemma {:induction false} AdmittedRectsIsOrderedFilter(cs: seq<Contour>, w: int, h: int)
    ensures var rois, ix := AdmittedRects(cs, w, h), AdmittedIndices(cs, w, h);
      && |ix| == |rois|
      && (forall k :: 0 <= k < |ix| ==> ix[k] < |cs| && rois[k] == cs[ix[k]].bounds)
      && (forall k, l :: 0 <= k < l < |ix| ==> ix[k] < ix[l])
      && (forall i :: 0 <= i < |cs| ==> (Admitted(cs[i], w, h) <==> i in ix))
  {
    if cs != [] {
      var init := cs[..|cs| - 1];
      AdmittedRectsIsOrderedFilter(init, w, h);
      assert forall i :: 0 <= i < |init| ==> init[i] == cs[i];
    }
  }

  /** Every ROI passes all thresholds: side lengths between 40 and 0.9 of
      the frame's, and it is the rectangle of a contour of area at least 2000. */
  lemma AdmittedRectsWithinBounds(cs: seq<Contour>, w: int, h: int)
    ensures forall r :: r in AdmittedRects(cs, w, h) ==>
      && MinSide <= r.w && 10 * r.w <= 9 * w
      && MinSide <= r.h && 10 * r.h <= 9 * h
      && exists c :: c in cs && c.bounds == r && c.area >= MinArea
  {
  }

  /** The area threshold is inclusive: 1999 is refused and 2000 admitted
      for a box that passes the size tests. */
  lemma AreaThresholdIsInclusive(b: Rect, w: int, h: int)
    requires MinSide <= b.w && 10 * b.w <= 9 * w
    requires MinSide <= b.h && 10 * b.h <= 9 * h
    ensures !Admitted(Contour(1999.0, b), w, h)
    ensures Admitted(Contour(2000.0, b), w, h)
  {
  }

  /** The size thresholds are inclusive too, for every frame and every
      passing area: a side of exactly MinSide is admitted and one pixel less
      is refused, and a side of exactly 0.9 of the frame's is admitted while
      anything longer is refused. Stated for the width with a passing height
      `ph`, and for the height with a passing width `pw`. */
  lemma SideThresholdsAreInclusive(area: real, x: int, y: int, w: int, h: int, side: int, pw: int, ph: int)
    requires area >= MinArea
    requires MinSide <= pw && 10 * pw <= 9 * w
    requires MinSide <= ph && 10 * ph <= 9 * h
    ensures Admitted(Contour(area, Rect(x, y, MinSide, ph)), w, h)
    ensures !Admitted(Contour(area, Rect(x, y, MinSide - 1, ph)), w, h)
    ensures Admitted(Contour(area, Rect(x, y, pw, MinSide)), w, h)
    ensures !Admitted(Contour(area, Rect(x, y, pw, MinSide - 1)), w, h)
    ensures MinSide <= side && 10 * side == 9 * w ==> Admitted(Contour(area, Rect(x, y, side, ph)), w, h)
    ensures 10 * side > 9 * w ==> !Admitted(Contour(area, Rect(x, y, side, ph)), w, h)
    ensures MinSide <= side && 10 * side == 9 * h ==> Admitted(Contour(area, Rect(x, y, pw, side)), w, h)
    ensures 10 * side > 9 * h ==> !Admitted(Contour(area, Rect(x, y, pw, side)), w, h)
  {
  }
}
