/** The YOLO export: one line per box, holding the class index in the sorted
    class list and the box centre and size as fractions of the image size,
    each clamped to `[0, 1]`. A line is the tuple of its five numbers; the
    six-decimal text `toFixed(6)` renders them in is not modelled. */
module Yolo {
  import opened Base
  import opened Labels
  import opened Store

  datatype YoloLine = YoloLine(classIndex: nat, xCenter: real, yCenter: real, width: real, height: real)

  /** `Array.prototype.indexOf` on strings: the first position of `x`, or -1. */
  function IndexOf(s: seq<string>, x: string): (k: int)
    ensures k == -1 <==> x !in s
    ensures k >= 0 ==> k < |s| && s[k] == x && forall j :: 0 <= j < k ==> s[j] != x
  {
    if s == [] then -1
    else if s[0] == x then 0
    else
      var k := IndexOf(s[1..], x);
      if k < 0 then -1 else k + 1
  }

  /** A normalised coordinate: `Math.max(0.0, Math.min(1.0, v))`. */
  function Unit(v: real): (r: real)
    ensures 0.0 <= r <= 1.0
    ensures 0.0 <= v <= 1.0 ==> r == v
  {
    Clamp(v, 0.0, 1.0)
  }

  predicate InUnit(l: YoloLine) {
    && 0.0 <= l.xCenter <= 1.0 && 0.0 <= l.yCenter <= 1.0
    && 0.0 <= l.width <= 1.0 && 0.0 <= l.height <= 1.0
  }

  /** The ordered box lies inside an image of `w` by `h` pixels. */
  predicate SpanInside(b: Box, w: real, h: real) {
    && 0.0 <= Min(b.x1, b.x2) && Max(b.x1, b.x2) <= w
    && 0.0 <= Min(b.y1, b.y2) && Max(b.y1, b.y2) <= h
  }

  /** `Math.max(0.0, Math.min(1.0, v * (1.0 / size)))`: `v` as a fraction of
      the image side `size`, clamped; exact for a `v` in `[0, size]`. */
  function Fraction(v: real, size: real): (r: real)
    requires size > 0.0
    ensures 0.0 <= r <= 1.0
  {
    Unit(v * (1.0 / size))
  }

  /** `formatYoloLine(imgWidth, imgHeight, box, classList)`; None stands for `null`. */
  function FormatYoloLine(imgW: real, imgH: real, b: Box, classList: seq<string>): (r: Option<YoloLine>)
    ensures r.None? <==> b.cls !in classList || imgW <= 0.0 || imgH <= 0.0
    ensures r.Some? ==> var k := r.value.classIndex;
              k < |classList| && classList[k] == b.cls && forall j :: 0 <= j < k ==> classList[j] != b.cls
    ensures r.Some? ==> InUnit(r.value)
  {
    var k := IndexOf(classList, b.cls);
    if k == -1 || imgW <= 0.0 || imgH <= 0.0 then None
    else
      var W, H := imgW, imgH;
      var xmin, xmax, ymin, ymax := Min(b.x1, b.x2), Max(b.x1, b.x2), Min(b.y1, b.y2), Max(b.y1, b.y2);
      Some(YoloLine(k, Fraction((xmin + xmax) / 2.0, W), Fraction((ymin + ymax) / 2.0, H),
                    Fraction(xmax - xmin, W), Fraction(ymax - ymin, H)))
  }

  /** A value in `[0, size]` is not clamped, so scaling its fraction back by
      the side gives the value itself. */
  lemma FractionExact(v: real, size: real)
    requires 0.0 <= v <= size && size > 0.0
    ensures Fraction(v, size) * size == v
  {
    var f := v * (1.0 / size);
    assert f == v / size;
    assert 0.0 <= f <= 1.0;
  }

  /** A span `[lo, hi]` of an image side `size` is measured exactly: its
      centre `c` and its length `w` as fractions of the side, scaled back. */
  lemma SpanExact(lo: real, hi: real, size: real, c: real, w: real)
    requires 0.0 <= lo <= hi <= size && size > 0.0
    requires c == Fraction((lo + hi) / 2.0, size) && w == Fraction(hi - lo, size)
    ensures c * size == (lo + hi) / 2.0 && w * size == hi - lo
  {
    FractionExact((lo + hi) / 2.0, size);
    FractionExact(hi - lo, size);
  }

  /** The horizontal values of line `l`, before any reasoning about clamping. */
  lemma YoloFieldsX(imgW: real, imgH: real, b: Box, classList: seq<string>, l: YoloLine)
    requires FormatYoloLine(imgW, imgH, b, classList) == Some(l)
    ensures l.xCenter == Fraction((Min(b.x1, b.x2) + Max(b.x1, b.x2)) / 2.0, imgW)
    ensures l.width == Fraction(Max(b.x1, b.x2) - Min(b.x1, b.x2), imgW)
  {
  }

  /** The vertical values of line `l`, likewise. */
  lemma YoloFieldsY(imgW: real, imgH: real, b: Box, classList: seq<string>, l: YoloLine)
    requires FormatYoloLine(imgW, imgH, b, classList) == Some(l)
    ensures l.yCenter == Fraction((Min(b.y1, b.y2) + Max(b.y1, b.y2)) / 2.0, imgH)
    ensures l.height == Fraction(Max(b.y1, b.y2) - Min(b.y1, b.y2), imgH)
  {
  }

  /** For a box inside the image no horizontal value of its line `l` is
      clamped: the centre and width are the box's, measured in image widths. */
  lemma YoloLineInsideX(imgW: real, imgH: real, b: Box, classList: seq<string>, l: YoloLine)
    requires FormatYoloLine(imgW, imgH, b, classList) == Some(l) && SpanInside(b, imgW, imgH)
    ensures l.xCenter * imgW == (Min(b.x1, b.x2) + Max(b.x1, b.x2)) / 2.0
    ensures l.width * imgW == Max(b.x1, b.x2) - Min(b.x1, b.x2)
  {
    YoloFieldsX(imgW, imgH, b, classList, l);
    SpanExact(Min(b.x1, b.x2), Max(b.x1, b.x2), imgW, l.xCenter, l.width);
  }

  /** Likewise vertically, in image heights. */
  lemma YoloLineInsideY(imgW: real, imgH: real, b: Box, classList: seq<string>, l: YoloLine)
    requires FormatYoloLine(imgW, imgH, b, classList) == Some(l) && SpanInside(b, imgW, imgH)
    ensures l.yCenter * imgH == (Min(b.y1, b.y2) + Max(b.y1, b.y2)) / 2.0
    ensures l.height * imgH == Max(b.y1, b.y2) - Min(b.y1, b.y2)
  {
    YoloFieldsY(imgW, imgH, b, classList, l);
    SpanExact(Min(b.y1, b.y2), Max(b.y1, b.y2), imgH, l.yCenter, l.height);
  }

  lemma SpanFromCentre(c: real, w: real, size: real, lo: real, hi: real)
    requires c * size == (lo + hi) / 2.0 && w * size == hi - lo
    ensures (c - w / 2.0) * size == lo && (c + w / 2.0) * size == hi
  {
    assert (c - w / 2.0) * size == c * size - (w * size) / 2.0;
    assert (c + w / 2.0) * size == c * size + (w * size) / 2.0;
  }

  /** Reading a line back: for a box inside the image, the centre and size
      of its line `l` give back the ordered corners in pixels. */
  lemma YoloDecode(imgW: real, imgH: real, b: Box, classList: seq<string>, l: YoloLine)
    requires FormatYoloLine(imgW, imgH, b, classList) == Some(l) && SpanInside(b, imgW, imgH)
    ensures (l.xCenter - l.width / 2.0) * imgW == Min(b.x1, b.x2)
    ensures (l.xCenter + l.width / 2.0) * imgW == Max(b.x1, b.x2)
    ensures (l.yCenter - l.height / 2.0) * imgH == Min(b.y1, b.y2)
    ensures (l.yCenter + l.height / 2.0) * imgH == Max(b.y1, b.y2)
  {
    YoloLineInsideX(imgW, imgH, b, classList, l);
    SpanFromCentre(l.xCenter, l.width, imgW, Min(b.x1, b.x2), Max(b.x1, b.x2));
    YoloLineInsideY(imgW, imgH, b, classList, l);
    SpanFromCentre(l.yCenter, l.height, imgH, Min(b.y1, b.y2), Max(b.y1, b.y2));
  }

  /** The elements among the first `i` of a sequence. */
  function PrefixSet(r: seq<string>, i: nat): set<string>
    requires i <= |r|
  {
    set j | 0 <= j < i :: r[j]
  }

  /** The known classes that sort before `x`. */
  function SmallerThan(known: set<string>, x: string): set<string> {
    set c | c in known && StrLess(c, x)
  }

  /** Distinct elements: the first `i` of them make a set of `i` elements. */
  lemma {:induction false} DistinctPrefixCard(r: seq<string>, i: nat)
    requires i <= |r| && StrictlySorted(r)
    ensures |PrefixSet(r, i)| == i
  {
    if i > 0 {
      DistinctPrefixCard(r, i - 1);
      assert PrefixSet(r, i) == PrefixSet(r, i - 1) + {r[i - 1]};
      assert r[i - 1] !in PrefixSet(r, i - 1) by {
        forall j | 0 <= j < i - 1 ensures r[j] != r[i - 1] {
          assert StrLess(r[j], r[i - 1]);
          StrLessIrreflexive(r[j]);
        }
      }
    }
  }

  /** In the sorted class list, a class's position is the number of classes
      that sort before it. */
  lemma SortedRank(known: set<string>, i: nat)
    requires i < |SortedClasses(known)|
    ensures i == |SmallerThan(known, SortedClasses(known)[i])|
  {
    var sorted := SortedClasses(known);
    SortedPosition(known, i);
    var smaller := SmallerThan(known, sorted[i]);
    var before := PrefixSet(sorted, i);
    forall c | c in before ensures c in smaller {
      var j :| 0 <= j < i && sorted[j] == c;
      assert c in sorted;
    }
    forall c | c in smaller ensures c in before {
      var j :| 0 <= j < i && sorted[j] == c;
    }
    assert smaller == before;
    DistinctPrefixCard(sorted, i);
  }

  /** Over `Array.from(knownClasses).sort()`, the class index of a known label
      is the number of known classes that sort before it. */
  lemma ClassIndexIsRank(imgW: real, imgH: real, b: Box, known: set<string>)
    requires b.cls in known && imgW > 0.0 && imgH > 0.0
    ensures var r := FormatYoloLine(imgW, imgH, b, SortedClasses(known));
      r.Some? && r.value.classIndex == |SmallerThan(known, b.cls)|
  {
    var r := FormatYoloLine(imgW, imgH, b, SortedClasses(known));
    SortedRank(known, r.value.classIndex);
  }

  /** `boxes.map(formatYoloLine).filter(line => line !== null)`. */
  function YoloLines(imgW: real, imgH: real, boxes: seq<Box>, classList: seq<string>): (r: seq<YoloLine>)
    ensures |r| <= |boxes|
    ensures imgW <= 0.0 || imgH <= 0.0 ==> r == []
    ensures forall i :: 0 <= i < |r| ==> InUnit(r[i])
    decreases |boxes|
  {
    if boxes == [] then []
    else
      var init := YoloLines(imgW, imgH, boxes[..|boxes| - 1], classList);
      var line := FormatYoloLine(imgW, imgH, boxes[|boxes| - 1], classList);
      if line.Some? then init + [line.value] else init
  }

  /** For a valid image whose labels are all in the class list, there is one
      line per box, in box order. */
  lemma {:induction false} YoloLinesComplete(imgW: real, imgH: real, boxes: seq<Box>, classList: seq<string>)
    requires imgW > 0.0 && imgH > 0.0
    requires forall i :: 0 <= i < |boxes| ==> boxes[i].cls in classList
    ensures var r := YoloLines(imgW, imgH, boxes, classList);
      |r| == |boxes| && forall i :: 0 <= i < |boxes| ==> Some(r[i]) == FormatYoloLine(imgW, imgH, boxes[i], classList)
    decreases |boxes|
  {
    if boxes != [] {
      var init := boxes[..|boxes| - 1];
      YoloLinesComplete(imgW, imgH, init, classList);
      var r := YoloLines(imgW, imgH, boxes, classList);
      forall i | 0 <= i < |boxes| ensures Some(r[i]) == FormatYoloLine(imgW, imgH, boxes[i], classList) {
        if i < |init| {
          assert boxes[i] == init[i];
        }
      }
    }
  }
}
