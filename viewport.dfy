/** The viewport transform: how internal canvas coordinates (CSS pixels times the
    device pixel ratio) relate to image pixels under the session's `scale`,
    `panX` and `panY`, and the two operations that change it, pivot-preserving
    zoom and fit-to-container. */
module Viewport {
  import opened Base

  const MIN_ZOOM: real := 0.1
  const MAX_ZOOM: real := 10.0
  const ZOOM_STEP: real := 1.2
  /** A zoom whose clamped scale moves by less than this is ignored. */
  const ZOOM_EPSILON: real := 0.000001

  datatype Point = Point(x: real, y: real)

  /** Image point `q` is drawn at canvas point `q * scale + pan`. */
  datatype Transform = Transform(scale: real, panX: real, panY: real)

  /** The range every transform of a session stays in. */
  predicate ValidScale(t: Transform) {
    MIN_ZOOM <= t.scale <= MAX_ZOOM
  }

  /** `canvasToImageCoords`: the image point drawn at canvas point `p`. */
  function CanvasToImage(t: Transform, p: Point): Point {
    if t.scale == 0.0 then Point(0.0, 0.0)
    else Point((p.x - t.panX) / t.scale, (p.y - t.panY) / t.scale)
  }

  /** `imageToCanvasCoords`: where image point `q` is drawn. */
  function ImageToCanvas(t: Transform, q: Point): Point {
    Point(q.x * t.scale + t.panX, q.y * t.scale + t.panY)
  }

  /** Mapping a canvas point to the image and back gives the canvas point. */
  lemma CanvasRoundTrip(t: Transform, p: Point)
    requires t.scale != 0.0
    ensures ImageToCanvas(t, CanvasToImage(t, p)) == p
  {
    var q := CanvasToImage(t, p);
    assert q.x * t.scale == p.x - t.panX;
    assert q.y * t.scale == p.y - t.panY;
  }

  /** Mapping an image point to the canvas and back gives the image point. */
  lemma ImageRoundTrip(t: Transform, q: Point)
    requires t.scale != 0.0
    ensures CanvasToImage(t, ImageToCanvas(t, q)) == q
  {
    var p := ImageToCanvas(t, q);
    assert (p.x - t.panX) / t.scale == q.x * t.scale / t.scale == q.x;
    assert (p.y - t.panY) / t.scale == q.y * t.scale / t.scale == q.y;
  }

  /** The scale a zoom by `factor` asks for, kept inside the zoom range. */
  function ZoomTarget(t: Transform, factor: real): (s: real)
    ensures MIN_ZOOM <= s <= MAX_ZOOM
  {
    Clamp(t.scale * factor, MIN_ZOOM, MAX_ZOOM)
  }

  /** `zoom(factor, pivotX, pivotY)`: the pivot is in CSS pixels and is scaled
      by the device pixel ratio `dpr`; nothing changes without a loaded image
      or when the clamped scale differs by less than `ZOOM_EPSILON`. */
  function Zoom(t: Transform, loaded: bool, factor: real, pivot: Point, dpr: real): (r: Transform)
    requires ValidScale(t)
    ensures ValidScale(r)
    ensures !loaded || Abs(ZoomTarget(t, factor) - t.scale) < ZOOM_EPSILON ==> r == t
    ensures loaded && Abs(ZoomTarget(t, factor) - t.scale) >= ZOOM_EPSILON ==>
              r.scale == ZoomTarget(t, factor) &&
              CanvasToImage(r, Point(pivot.x * dpr, pivot.y * dpr)) ==
              CanvasToImage(t, Point(pivot.x * dpr, pivot.y * dpr))
  {
    var s := ZoomTarget(t, factor);
    if !loaded || Abs(s - t.scale) < ZOOM_EPSILON then t
    else
      var c := Point(pivot.x * dpr, pivot.y * dpr);
      var q := CanvasToImage(t, c);
      var r := Transform(s, c.x - q.x * s, c.y - q.y * s);
      assert CanvasToImage(r, c) == q by {
        assert (c.x - r.panX) / s == q.x;
        assert (c.y - r.panY) / s == q.y;
      }
      r
  }

  /** `zoomIn`, `zoomOut` and the wheel all zoom by `ZOOM_STEP` or its inverse. */
  function WheelFactor(deltaY: real): (f: real)
    ensures f == ZOOM_STEP || f * ZOOM_STEP == 1.0
    ensures deltaY > 0.0 <==> f < 1.0
  {
    if deltaY > 0.0 then 1.0 / ZOOM_STEP else ZOOM_STEP
  }

  /** `fitImageToContainer`: for an image of `imgW` by `imgH` pixels in a
      container of `cw` by `ch` CSS pixels, the largest scale at which the
      image fits, clamped to the zoom range, with the image centred. Nothing
      changes without an image, for an image with a zero side, or for a
      container with a side that is not positive. */
  function Fit(t: Transform, image: Option<(nat, nat)>, cw: int, ch: int): (r: Transform)
    requires ValidScale(t)
    ensures ValidScale(r)
    ensures image.None? || image.value.0 == 0 || image.value.1 == 0 || cw <= 0 || ch <= 0 ==> r == t
    ensures image.Some? && image.value.0 > 0 && image.value.1 > 0 && cw > 0 && ch > 0 ==>
              var (w, h) := image.value;
              && r.scale == Clamp(Min(cw as real / w as real, ch as real / h as real), MIN_ZOOM, MAX_ZOOM)
              && 2.0 * r.panX + w as real * r.scale == cw as real
              && 2.0 * r.panY + h as real * r.scale == ch as real
  {
    match image
    case None => t
    case Some((w, h)) =>
      if w == 0 || h == 0 || cw <= 0 || ch <= 0 then t
      else
        var s := Clamp(Min(cw as real / w as real, ch as real / h as real), MIN_ZOOM, MAX_ZOOM);
        Transform(s, (cw as real - w as real * s) / 2.0, (ch as real - h as real * s) / 2.0)
  }

  /** When the fitting scale lies inside the zoom range, the fitted image lies
      inside the container and touches two opposite sides of it. */
  lemma FitInside(t: Transform, w: nat, h: nat, cw: int, ch: int)
    requires ValidScale(t) && w > 0 && h > 0 && cw > 0 && ch > 0
    requires MIN_ZOOM <= Min(cw as real / w as real, ch as real / h as real) <= MAX_ZOOM
    ensures var r := Fit(t, Some((w, h)), cw, ch);
      && 0.0 <= r.panX && r.panX + w as real * r.scale <= cw as real
      && 0.0 <= r.panY && r.panY + h as real * r.scale <= ch as real
      && (r.panX == 0.0 || r.panY == 0.0)
  {
    var r := Fit(t, Some((w, h)), cw, ch);
    var sx, sy := cw as real / w as real, ch as real / h as real;
    assert r.scale == Min(sx, sy);
    assert w as real * sx == cw as real;
    assert h as real * sy == ch as real;
    assert w as real * r.scale <= cw as real by {
      assert r.scale <= sx;
      MulMonotone(w as real, r.scale, sx);
    }
    assert h as real * r.scale <= ch as real by {
      assert r.scale <= sy;
      MulMonotone(h as real, r.scale, sy);
    }
  }

  lemma MulMonotone(a: real, x: real, y: real)
    requires 0.0 <= a && x <= y
    ensures a * x <= a * y
  {
  }
}
