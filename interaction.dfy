/** Mouse geometry of the annotator: hit-testing boxes and their corner
    handles on the canvas, the in-place edits a drag makes to the selected box
    (`resizeAnnotation`, `moveAnnotation`), the commits a mouse-up applies to
    them, and the rules that pick a mode on mouse-down and an action for
    Escape. All points are internal canvas coordinates (CSS pixels times the
    device pixel ratio `dpr`) unless they are named image points. */
module Interaction {
  import opened Base
  import opened Viewport
  import opened Store

  /** Drawn size of a corner handle, in CSS pixels. */
  const HANDLE_SIZE: real := 8.0
  /** Extra reach around a handle a press still hits, in CSS pixels. */
  const HANDLE_HIT_TOLERANCE: real := 6.0
  /** How far, in CSS pixels, a pressed box must be dragged before it moves. */
  const DRAG_THRESHOLD_PX: real := 5.0

  datatype Handle = NW | NE | SW | SE

  /** `interactionState.mode`; `Idle` stands for `null`. */
  datatype Mode = Idle | Draw | Select | Move | Resize | Pan

  /** The order in which the handles are tested: the first hit wins. */
  const HANDLE_ORDER: seq<Handle> := [NW, NE, SW, SE]

  /** The handle diagonally opposite `h`. */
  function Opposite(h: Handle): (o: Handle)
    ensures o != h
  {
    match h
    case NW => SE
    case NE => SW
    case SW => NE
    case SE => NW
  }

  /** The corner of a box a handle drags, read from the stored fields: the
      `x1`/`y1` side is west/north, whichever way the box is oriented. */
  function BoxCorner(b: Box, h: Handle): Point {
    match h
    case NW => Point(b.x1, b.y1)
    case NE => Point(b.x2, b.y1)
    case SW => Point(b.x1, b.y2)
    case SE => Point(b.x2, b.y2)
  }

  /** The canvas rectangle a box is drawn in, with ordered sides. */
  datatype Rect = Rect(xmin: real, ymin: real, xmax: real, ymax: real)

  function CanvasRect(t: Transform, b: Box): (r: Rect)
    ensures r.xmin <= r.xmax && r.ymin <= r.ymax
  {
    var c1 := ImageToCanvas(t, Point(b.x1, b.y1));
    var c2 := ImageToCanvas(t, Point(b.x2, b.y2));
    Rect(Min(c1.x, c2.x), Min(c1.y, c2.y), Max(c1.x, c2.x), Max(c1.y, c2.y))
  }

  function RectCorner(r: Rect, h: Handle): Point {
    match h
    case NW => Point(r.xmin, r.ymin)
    case NE => Point(r.xmax, r.ymin)
    case SW => Point(r.xmin, r.ymax)
    case SE => Point(r.xmax, r.ymax)
  }

  /** The inclusive hit test of `getAnnotationAtCoords` for one box. */
  predicate Contains(t: Transform, b: Box, p: Point) {
    var r := CanvasRect(t, b);
    r.xmin <= p.x <= r.xmax && r.ymin <= p.y <= r.ymax
  }

  lemma ScaleMonotone(a: real, b: real, s: real, pan: real)
    requires s > 0.0
    ensures a <= b <==> a * s + pan <= b * s + pan
  {
    if a <= b {
      assert (b - a) * s >= 0.0;
    } else {
      assert (a - b) * s > 0.0;
    }
  }

  /** Scaling by a positive factor and panning keeps the smaller and the larger end. */
  lemma MinMaxScaled(a: real, b: real, s: real, pan: real)
    requires s > 0.0
    ensures Min(a * s + pan, b * s + pan) == Min(a, b) * s + pan
    ensures Max(a * s + pan, b * s + pan) == Max(a, b) * s + pan
  {
    ScaleMonotone(a, b, s, pan);
  }

  /** Horizontally, the canvas rectangle spans the ordered box's x-range, scaled and panned. */
  lemma CanvasRectX(t: Transform, b: Box)
    requires t.scale > 0.0
    ensures CanvasRect(t, b).xmin == Min(b.x1, b.x2) * t.scale + t.panX
    ensures CanvasRect(t, b).xmax == Max(b.x1, b.x2) * t.scale + t.panX
  {
    MinMaxScaled(b.x1, b.x2, t.scale, t.panX);
  }

  /** Vertically, likewise with the y-range. */
  lemma CanvasRectY(t: Transform, b: Box)
    requires t.scale > 0.0
    ensures CanvasRect(t, b).ymin == Min(b.y1, b.y2) * t.scale + t.panY
    ensures CanvasRect(t, b).ymax == Max(b.y1, b.y2) * t.scale + t.panY
  {
    MinMaxScaled(b.y1, b.y2, t.scale, t.panY);
  }

  /** For a positive scale, the canvas rectangle is the image of the ordered box. */
  lemma CanvasRectOfBox(t: Transform, b: Box)
    requires t.scale > 0.0
    ensures CanvasRect(t, b) ==
              Rect(Min(b.x1, b.x2) * t.scale + t.panX, Min(b.y1, b.y2) * t.scale + t.panY,
                   Max(b.x1, b.x2) * t.scale + t.panX, Max(b.y1, b.y2) * t.scale + t.panY)
  {
    CanvasRectX(t, b);
    CanvasRectY(t, b);
  }

  /** A canvas point hits a box exactly when the image point under it lies in
      the box, whichever way its corners are ordered. */
  lemma ContainsMeansInBox(t: Transform, b: Box, p: Point)
    requires t.scale > 0.0
    ensures var q := CanvasToImage(t, p);
      Contains(t, b, p) <==> InSpan(b.x1, b.x2, q.x) && InSpan(b.y1, b.y2, q.y)
  {
    ContainsX(t, b, p);
    ContainsY(t, b, p);
  }

  /** The horizontal half of the hit test, on the image's x-axis. */
  lemma ContainsX(t: Transform, b: Box, p: Point)
    requires t.scale > 0.0
    ensures CanvasRect(t, b).xmin <= p.x <= CanvasRect(t, b).xmax <==> InSpan(b.x1, b.x2, CanvasToImage(t, p).x)
  {
    var q := CanvasToImage(t, p);
    CanvasRoundTrip(t, p);
    assert q.x * t.scale + t.panX == p.x;
    CanvasRectX(t, b);
    SpanScaled(b.x1, b.x2, q.x, t.scale, t.panX, CanvasRect(t, b).xmin, CanvasRect(t, b).xmax, p.x);
  }

  /** The vertical half of the hit test, on the image's y-axis. */
  lemma ContainsY(t: Transform, b: Box, p: Point)
    requires t.scale > 0.0
    ensures CanvasRect(t, b).ymin <= p.y <= CanvasRect(t, b).ymax <==> InSpan(b.y1, b.y2, CanvasToImage(t, p).y)
  {
    var q := CanvasToImage(t, p);
    CanvasRoundTrip(t, p);
    assert q.y * t.scale + t.panY == p.y;
    CanvasRectY(t, b);
    SpanScaled(b.y1, b.y2, q.y, t.scale, t.panY, CanvasRect(t, b).ymin, CanvasRect(t, b).ymax, p.y);
  }

  /** A value lies between two others exactly when it does after scaling by
      a positive factor and shifting: `lo`, `hi` and `w` are the scaled ends
      and value. */
  lemma SpanScaled(a: real, b: real, v: real, s: real, pan: real, lo: real, hi: real, w: real)
    requires s > 0.0
    requires lo == Min(a, b) * s + pan && hi == Max(a, b) * s + pan && w == v * s + pan
    ensures lo <= w <= hi <==> InSpan(a, b, v)
  {
    ScaleMonotone(Min(a, b), v, s, pan);
    ScaleMonotone(v, Max(a, b), s, pan);
  }

  /** The box under canvas point `p` that is drawn last, so on top. */
  function TopmostHit(t: Transform, anns: seq<Box>, p: Point): (r: Option<nat>)
    ensures r.Some? ==> r.value < |anns| && Contains(t, anns[r.value], p)
    ensures r.Some? ==> forall j :: r.value < j < |anns| ==> !Contains(t, anns[j], p)
    ensures r.None? <==> forall j :: 0 <= j < |anns| ==> !Contains(t, anns[j], p)
    decreases |anns|
  {
    if anns == [] then None
    else if Contains(t, anns[|anns| - 1], p) then Some(|anns| - 1)
    else
      var init := anns[..|anns| - 1];
      assert forall j :: 0 <= j < |init| ==> init[j] == anns[j];
      TopmostHit(t, init, p)
  }

  /** `getAnnotationAtCoords`: the reverse loop over the boxes, so the box
      drawn last (on top) wins. */
  method AnnotationAt(t: Transform, anns: seq<Box>, p: Point) returns (r: Option<nat>)
    ensures r.Some? ==> r.value < |anns| && Contains(t, anns[r.value], p)
    ensures r.Some? ==> forall j :: r.value < j < |anns| ==> !Contains(t, anns[j], p)
    ensures r.None? <==> forall j :: 0 <= j < |anns| ==> !Contains(t, anns[j], p)
    ensures r == TopmostHit(t, anns, p)
  {
    var i := |anns|;
    while i > 0
      invariant 0 <= i <= |anns|
      invariant forall j :: i <= j < |anns| ==> !Contains(t, anns[j], p)
    {
      i := i - 1;
      if Contains(t, anns[i], p) {
        return Some(i);
      }
    }
    return None;
  }

  /** The reach of a handle in canvas units: `(HANDLE_SIZE / 2 + HANDLE_HIT_TOLERANCE) * dpr`. */
  function HitArea(dpr: real): real {
    (HANDLE_SIZE / 2.0 + HANDLE_HIT_TOLERANCE) * dpr
  }

  /** The position of a handle in `HANDLE_ORDER`. */
  function HandleIndex(h: Handle): (k: nat)
    ensures k < 4 && HANDLE_ORDER[k] == h
  {
    match h
    case NW => 0
    case NE => 1
    case SW => 2
    case SE => 3
  }

  /** Strictly within `hit` of `c` on both axes. */
  predicate Near(c: Point, p: Point, hit: real) {
    Abs(p.x - c.x) < hit && Abs(p.y - c.y) < hit
  }

  /** `getHandleAtCoords` for the selected box `b`: the first handle, in
      `HANDLE_ORDER`, whose corner of the canvas rectangle is near `p`. */
  function HandleAt(t: Transform, b: Box, p: Point, dpr: real): (r: Option<Handle>)
    ensures r.Some? ==> Near(RectCorner(CanvasRect(t, b), r.value), p, HitArea(dpr))
  {
    var rect, hit := CanvasRect(t, b), HitArea(dpr);
    if Near(RectCorner(rect, NW), p, hit) then Some(NW)
    else if Near(RectCorner(rect, NE), p, hit) then Some(NE)
    else if Near(RectCorner(rect, SW), p, hit) then Some(SW)
    else if Near(RectCorner(rect, SE), p, hit) then Some(SE)
    else None
  }

  /** The first match wins: a handle near the point is found, unless one
      earlier in `HANDLE_ORDER` is near it too. */
  lemma HandleAtFirstMatch(t: Transform, b: Box, p: Point, dpr: real, h: Handle)
    requires Near(RectCorner(CanvasRect(t, b), h), p, HitArea(dpr))
    ensures var r := HandleAt(t, b, p, dpr);
      r.Some? && HandleIndex(r.value) <= HandleIndex(h)
  {
    match h
    case NW =>
    case NE =>
    case SW =>
    case SE =>
  }

  /** For a box with ordered corners and a positive scale, each handle sits on
      the canvas image of the box corner it drags. */
  lemma HandleOnBoxCorner(t: Transform, b: Box, h: Handle)
    requires t.scale > 0.0 && b.x1 <= b.x2 && b.y1 <= b.y2
    ensures RectCorner(CanvasRect(t, b), h) == ImageToCanvas(t, BoxCorner(b, h))
  {
    CanvasRectOfBox(t, b);
  }

  // ----- resize -----

  /** `resizeAnnotation`: the dragged corner of the box moves to image point
      `q`; the opposite corner and the label stay. */
  function Resized(b: Box, h: Handle, q: Point): (r: Box)
    ensures BoxCorner(r, h) == q
    ensures BoxCorner(r, Opposite(h)) == BoxCorner(b, Opposite(h))
    ensures r.cls == b.cls
  {
    match h
    case NW => b.(x1 := q.x, y1 := q.y)
    case NE => b.(x2 := q.x, y1 := q.y)
    case SW => b.(x1 := q.x, y2 := q.y)
    case SE => b.(x2 := q.x, y2 := q.y)
  }

  /** During a resize the dragged corner is drawn exactly under the mouse. */
  lemma ResizeTracksMouse(t: Transform, b: Box, h: Handle, p: Point)
    requires t.scale != 0.0
    ensures ImageToCanvas(t, BoxCorner(Resized(b, h, CanvasToImage(t, p)), h)) == p
  {
    CanvasRoundTrip(t, p);
  }

  /** The resize commit at mouse-up: the box is normalised and clamped; when
      that leaves no area, None, and the box keeps the corners the drag wrote
      (it is not reverted). */
  function CommitResize(b: Box, dims: Option<Dims>): (r: Option<Box>)
    ensures r.None? <==> !IsProper(NormalizedClamped(BoxCorner(b, NW), BoxCorner(b, SE), dims, b.cls))
    ensures r.Some? ==>
              && r.value.cls == b.cls && IsProper(r.value) && InsideImage(r.value, dims)
              && forall q :: InBox(r.value, q) <==> InSpan(b.x1, b.x2, q.x) && InSpan(b.y1, b.y2, q.y) && InImage(dims, q)
  {
    var n := NormalizedClamped(BoxCorner(b, NW), BoxCorner(b, SE), dims, b.cls);
    if IsProper(n) then
      ProperClampedInside(BoxCorner(b, NW), BoxCorner(b, SE), dims, b.cls);
      Some(n)
    else None
  }

  /** The box left by committing a resize: the committed box, or else the box as dragged. */
  function AfterResize(b: Box, dims: Option<Dims>): Box {
    var c := CommitResize(b, dims);
    if c.Some? then c.value else b
  }

  /** Committing a committed box again changes nothing. */
  lemma CommitResizeIdempotent(b: Box, dims: Option<Dims>)
    requires CommitResize(b, dims).Some?
    ensures CommitResize(CommitResize(b, dims).value, dims) == CommitResize(b, dims)
  {
  }

  /** A resize drag followed by its commit gives the box spanned by the
      mouse's image point and the corner opposite the handle, whichever
      side of that corner the mouse ended on, clipped to the image. */
  lemma ResizeCommitSpansOpposite(b: Box, h: Handle, q: Point, dims: Option<Dims>)
    ensures var o := BoxCorner(b, Opposite(h));
      var c := CommitResize(Resized(b, h, q), dims);
      c.Some? ==> forall v :: InBox(c.value, v) <==> InSpan(q.x, o.x, v.x) && InSpan(q.y, o.y, v.y) && InImage(dims, v)
  {
  }

  /** Dragging the north-west handle past the box's south-east corner flips
      the stored corners; the commit orders them again and keeps the result:
      the box now runs from the old south-east corner to the mouse's image
      point (no revert). */
  lemma FlippedResizeIsNormalised(b: Box, q: Point, dims: Option<Dims>)
    requires b.x2 < q.x && b.y2 < q.y
    requires InImage(dims, BoxCorner(b, SE)) && InImage(dims, q)
    ensures Resized(b, NW, q) == Box(q.x, q.y, b.x2, b.y2, b.cls)
    ensures CommitResize(Resized(b, NW, q), dims) == Some(Box(b.x2, b.y2, q.x, q.y, b.cls))
  {
  }

  // ----- move -----

  /** `moveAnnotation`: all four coordinates shift by the image-space delta `d`. */
  function Translated(b: Box, d: Point): (r: Box)
    ensures r.cls == b.cls
    ensures r.x2 - r.x1 == b.x2 - b.x1 && r.y2 - r.y1 == b.y2 - b.y1
    ensures forall h :: BoxCorner(r, h) == Point(BoxCorner(b, h).x + d.x, BoxCorner(b, h).y + d.y)
  {
    Box(b.x1 + d.x, b.y1 + d.y, b.x2 + d.x, b.y2 + d.y, b.cls)
  }

  /** The image-space delta of a mouse step from `last` to `p`: the canvas delta over `scale`. */
  function ImageDelta(t: Transform, last: Point, p: Point): Point
    requires t.scale != 0.0
  {
    Point((p.x - last.x) / t.scale, (p.y - last.y) / t.scale)
  }

  /** On screen, a moved box follows the mouse exactly: each corner is drawn
      shifted by the mouse's canvas delta. */
  lemma MoveFollowsMouse(t: Transform, b: Box, last: Point, p: Point, h: Handle)
    requires t.scale != 0.0
    ensures var before := ImageToCanvas(t, BoxCorner(b, h));
      ImageToCanvas(t, BoxCorner(Translated(b, ImageDelta(t, last, p)), h)) ==
        Point(before.x + (p.x - last.x), before.y + (p.y - last.y))
  {
    var d := ImageDelta(t, last, p);
    var c := BoxCorner(b, h);
    assert d.x * t.scale == p.x - last.x;
    assert d.y * t.scale == p.y - last.y;
    var moved := BoxCorner(Translated(b, d), h);
    assert moved == Point(c.x + d.x, c.y + d.y);
    assert (c.x + d.x) * t.scale == c.x * t.scale + d.x * t.scale;
    assert (c.y + d.y) * t.scale == c.y * t.scale + d.y * t.scale;
    assert ImageToCanvas(t, moved).x == ImageToCanvas(t, c).x + (p.x - last.x);
    assert ImageToCanvas(t, moved).y == ImageToCanvas(t, c).y + (p.y - last.y);
  }

  /** Successive move steps add up: moving from `s` to `a` and then to `p`
      is one move from `s` to `p`. */
  lemma MoveStepsCompose(t: Transform, b: Box, s: Point, a: Point, p: Point)
    requires t.scale != 0.0
    ensures Translated(Translated(b, ImageDelta(t, s, a)), ImageDelta(t, a, p)) == Translated(b, ImageDelta(t, s, p))
  {
    var k := t.scale;
    assert (a.x - s.x) / k + (p.x - a.x) / k == (p.x - s.x) / k;
    assert (a.y - s.y) / k + (p.y - a.y) / k == (p.y - s.y) / k;
    assert b.x1 + (a.x - s.x) / k + (p.x - a.x) / k == b.x1 + (p.x - s.x) / k;
    assert b.x2 + (a.x - s.x) / k + (p.x - a.x) / k == b.x2 + (p.x - s.x) / k;
    assert b.y1 + (a.y - s.y) / k + (p.y - a.y) / k == b.y1 + (p.y - s.y) / k;
    assert b.y2 + (a.y - s.y) / k + (p.y - a.y) / k == b.y2 + (p.y - s.y) / k;
  }

  /** The move commit at mouse-up: when the image size is known, the top-left
      corner is pulled into `[0, W - width] x [0, H - height]` (and then up to
      0), and the bottom-right follows so width and height stay exactly. */
  function CommitMove(b: Box, dims: Option<Dims>): (r: Box)
    ensures r.cls == b.cls
    ensures r.x2 - r.x1 == b.x2 - b.x1 && r.y2 - r.y1 == b.y2 - b.y1
    ensures dims.None? ==> r == b
    ensures dims.Some? ==> 0.0 <= r.x1 && 0.0 <= r.y1
    ensures dims.Some? && b.x2 - b.x1 <= dims.value.w as real ==> r.x2 <= dims.value.w as real
    ensures dims.Some? && b.y2 - b.y1 <= dims.value.h as real ==> r.y2 <= dims.value.h as real
    ensures dims.Some? && b.x2 - b.x1 > dims.value.w as real ==> r.x1 == 0.0
    ensures dims.Some? && b.y2 - b.y1 > dims.value.h as real ==> r.y1 == 0.0
  {
    match dims
    case None => b
    case Some(d) =>
      var width, height := b.x2 - b.x1, b.y2 - b.y1;
      var x1 := Max(0.0, Min(d.w as real - width, b.x1));
      var y1 := Max(0.0, Min(d.h as real - height, b.y1));
      Box(x1, y1, x1 + width, y1 + height, b.cls)
  }

  /** `a` is at least as close to `target` as `x` is. */
  predicate AtLeastAsClose(a: real, x: real, target: real) {
    Abs(a - target) <= Abs(x - target)
  }

  /** A box already inside the image is left where it is, and among the
      positions inside the image the commit picks the one nearest the drop. */
  lemma CommitMoveNearest(b: Box, d: Dims)
    requires 0.0 <= b.x2 - b.x1 <= d.w as real && 0.0 <= b.y2 - b.y1 <= d.h as real
    ensures var r := CommitMove(b, Some(d));
      && InsideImage(r, Some(d))
      && (InsideImage(b, Some(d)) ==> r == b)
      && (forall x :: 0.0 <= x <= d.w as real - (b.x2 - b.x1) ==> AtLeastAsClose(r.x1, x, b.x1))
      && (forall y :: 0.0 <= y <= d.h as real - (b.y2 - b.y1) ==> AtLeastAsClose(r.y1, y, b.y1))
  {
  }

  /** Moving a box and committing it inside a large enough image keeps it the
      same size, on the image. */
  lemma MoveThenCommitInside(t: Transform, b: Box, s: Point, p: Point, d: Dims)
    requires t.scale != 0.0
    requires 0.0 <= b.x2 - b.x1 <= d.w as real && 0.0 <= b.y2 - b.y1 <= d.h as real
    ensures var r := CommitMove(Translated(b, ImageDelta(t, s, p)), Some(d));
      && InsideImage(r, Some(d))
      && r.x2 - r.x1 == b.x2 - b.x1 && r.y2 - r.y1 == b.y2 - b.y1
      && r.cls == b.cls
  {
    CommitMoveNearest(Translated(b, ImageDelta(t, s, p)), d);
  }

  // ----- press, drag threshold, Escape -----

  /** The mouse has left the press point by more than `5 * dpr` canvas
      units; the source compares the square root of the squared distance with
      the threshold, which for non-negative numbers is comparing the squares. */
  predicate Promotes(start: Point, p: Point, dpr: real) {
    var dx, dy, limit := p.x - start.x, p.y - start.y, DRAG_THRESHOLD_PX * dpr;
    dx * dx + dy * dy > limit * limit
  }

  lemma SquareLess(a: real, b: real)
    requires 0.0 <= a < b
    ensures a * a < b * b
  {
    assert a * (b - a) >= 0.0;
    assert b * (b - a) > 0.0;
  }

  lemma SquareAtMost(a: real, b: real)
    requires 0.0 <= a <= b
    ensures a * a <= b * b
  {
    assert a * (b - a) >= 0.0;
    assert b * (b - a) >= 0.0;
  }

  /** A drag that goes beyond the threshold along either axis promotes a
      pressed box to a move; one that stays within half of it on both axes
      does not. */
  lemma PromotesBounds(start: Point, p: Point, dpr: real)
    requires dpr > 0.0
    ensures var dx, dy, limit := p.x - start.x, p.y - start.y, DRAG_THRESHOLD_PX * dpr;
      && (Abs(dx) > limit || Abs(dy) > limit ==> Promotes(start, p, dpr))
      && (Abs(dx) <= limit / 2.0 && Abs(dy) <= limit / 2.0 ==> !Promotes(start, p, dpr))
  {
    var dx, dy, limit := p.x - start.x, p.y - start.y, DRAG_THRESHOLD_PX * dpr;
    assert Abs(dx) * Abs(dx) == dx * dx;
    assert Abs(dy) * Abs(dy) == dy * dy;
    assert 0.0 <= dx * dx && 0.0 <= dy * dy by {
      SquareAtMost(0.0, Abs(dx));
      SquareAtMost(0.0, Abs(dy));
    }
    if Abs(dx) > limit {
      SquareLess(limit, Abs(dx));
    } else if Abs(dy) > limit {
      SquareLess(limit, Abs(dy));
    }
    if Abs(dx) <= limit / 2.0 && Abs(dy) <= limit / 2.0 {
      SquareAtMost(Abs(dx), limit / 2.0);
      SquareAtMost(Abs(dy), limit / 2.0);
      assert (limit / 2.0) * (limit / 2.0) == limit * limit / 4.0;
      assert limit * limit > 0.0;
    }
  }

  /** What a mouse-down decides: the new mode, the selection and the handle. */
  datatype Press = Press(mode: Mode, selected: Option<nat>, handle: Option<Handle>)

  /** The dispatch of `onMouseDown`, first match wins: a handle of the
      selected box starts a resize; else the topmost box under the mouse
      is selected; else draw mode starts a draw; else a pan. */
  function PressOutcome(handle: Option<Handle>, selected: Option<nat>, hit: Option<nat>, drawing: bool): (r: Press)
    ensures r.mode == Resize <==> handle.Some? && selected.Some?
    ensures r.mode == Resize ==> r.selected == selected && r.handle == handle
    ensures r.mode == Select <==> !(handle.Some? && selected.Some?) && hit.Some?
    ensures r.mode == Select ==> r.selected == hit && r.handle.None?
    ensures r.mode == Draw <==> !(handle.Some? && selected.Some?) && hit.None? && drawing
    ensures r.mode == Pan <==> !(handle.Some? && selected.Some?) && hit.None? && !drawing
    ensures r.mode == Draw || r.mode == Pan ==> r.selected.None? && r.handle.None?
    ensures r.mode != Idle && r.mode != Move
  {
    if handle.Some? && selected.Some? then Press(Resize, selected, handle)
    else if hit.Some? then Press(Select, hit, None)
    else if drawing then Press(Draw, None, None)
    else Press(Pan, None, None)
  }

  datatype EscapeAction = CancelDraw | Deselect | LeaveDrawMode | Ignore

  /** The Escape priority chain: cancel a draw drag, else clear the
      selection, else leave draw mode. */
  function EscapeOutcome(drawDrag: bool, selected: Option<nat>, drawing: bool): (r: EscapeAction)
    ensures r == CancelDraw <==> drawDrag
    ensures r == Deselect <==> !drawDrag && selected.Some?
    ensures r == LeaveDrawMode <==> !drawDrag && selected.None? && drawing
    ensures r == Ignore <==> !drawDrag && selected.None? && !drawing
  {
    if drawDrag then CancelDraw
    else if selected.Some? then Deselect
    else if drawing then LeaveDrawMode
    else Ignore
  }
}
