/** The Pascal VOC codec: `escapeXml`, the document `createPascalVocXml`
    writes for one image, and `parsePascalVoc`, which reads the `<object>`
    elements of such a document back into boxes. The reader works on the
    records an XML parser yields for each `<object>` (its optional `<name>`
    text and `<bndbox>` coordinates), not on XML text. */
module Voc {
  import opened Base
  import opened Decimal
  import opened Labels
  import opened Store

  // ----- escaping -----

  /** The characters `escapeXml` replaces. */
  predicate IsSpecial(c: char) {
    c == '<' || c == '>' || c == '&' || c == '\'' || c == '"'
  }

  function EscapeChar(c: char): (r: string)
    ensures !IsSpecial(c) ==> r == [c]
    ensures IsSpecial(c) ==> |r| >= 4 && r[0] == '&' && r[|r| - 1] == ';'
  {
    match c
    case '<' => "&lt;"
    case '>' => "&gt;"
    case '&' => "&amp;"
    case '\'' => "&apos;"
    case '"' => "&quot;"
    case _ => [c]
  }

  /** `escapeXml(s)`: every special character replaced by its entity. */
  function EscapeXml(s: string): (r: string)
    ensures |r| >= |s|
    ensures forall k :: 0 <= k < |r| ==> r[k] != '<' && r[k] != '>' && r[k] != '\'' && r[k] != '"'
  {
    if s == [] then [] else EscapeChar(s[0]) + EscapeXml(s[1..])
  }

  /** Escaping leaves text without special characters as it is, and changes
      any text that has one. */
  lemma {:induction false} EscapeIdentity(s: string)
    ensures EscapeXml(s) == s <==> forall k :: 0 <= k < |s| ==> !IsSpecial(s[k])
  {
    if s != [] {
      EscapeIdentity(s[1..]);
      if IsSpecial(s[0]) {
        EscapeLength(s[1..]);
        assert |EscapeXml(s)| > |s|;
      } else {
        assert EscapeXml(s) == [s[0]] + EscapeXml(s[1..]);
        if EscapeXml(s) == s {
          assert EscapeXml(s[1..]) == s[1..];
        }
        if forall k :: 0 <= k < |s| ==> !IsSpecial(s[k]) {
          assert forall k :: 0 <= k < |s[1..]| ==> !IsSpecial(s[1..][k]) by {
            forall k | 0 <= k < |s[1..]| ensures !IsSpecial(s[1..][k]) {
              assert s[1..][k] == s[k + 1];
            }
          }
        }
        if !(forall k :: 0 <= k < |s| ==> !IsSpecial(s[k])) {
          var k :| 0 <= k < |s| && IsSpecial(s[k]);
          assert s[1..][k - 1] == s[k];
        }
      }
    }
  }

  lemma {:induction false} EscapeLength(s: string)
    ensures |EscapeXml(s)| >= |s|
  {
  }

  /** Escaping distributes over concatenation. */
  lemma {:induction false} EscapeConcat(a: string, b: string)
    ensures EscapeXml(a + b) == EscapeXml(a) + EscapeXml(b)
  {
    if a != [] {
      assert (a + b)[0] == a[0];
      assert (a + b)[1..] == a[1..] + b;
      EscapeConcat(a[1..], b);
    } else {
      assert a + b == b;
    }
  }

  /** The decoding an XML parser applies to text content, for the five
      predefined entities; any other `&` is kept as it is. */
  function UnescapeXml(s: string): string
    decreases |s|
  {
    if s == [] then []
    else if |s| >= 4 && s[..4] == "&lt;" then "<" + UnescapeXml(s[4..])
    else if |s| >= 4 && s[..4] == "&gt;" then ">" + UnescapeXml(s[4..])
    else if |s| >= 5 && s[..5] == "&amp;" then "&" + UnescapeXml(s[5..])
    else if |s| >= 6 && s[..6] == "&apos;" then "'" + UnescapeXml(s[6..])
    else if |s| >= 6 && s[..6] == "&quot;" then "\"" + UnescapeXml(s[6..])
    else [s[0]] + UnescapeXml(s[1..])
  }

  /** Decoding the escape of one character followed by any text decodes
      that character and then the text. */
  lemma UnescapeStep(c: char, rest: string)
    ensures UnescapeXml(EscapeChar(c) + rest) == [c] + UnescapeXml(rest)
  {
    var t := EscapeChar(c) + rest;
    match c
    case '<' =>
      assert t[..4] == "&lt;" && t[4..] == rest;
    case '>' =>
      assert t[..4] == "&gt;" && t[4..] == rest;
    case '&' =>
      assert t[..4][1] == 'a';
      assert t[..5] == "&amp;" && t[5..] == rest;
    case '\'' =>
      assert t[..4][1] == 'a' && t[..5][2] == 'p';
      assert t[..6] == "&apos;" && t[6..] == rest;
    case '"' =>
      assert t[..4][1] == 'q' && t[..5][1] == 'q' && t[..6][1] == 'q';
      assert t[..6] == "&quot;" && t[6..] == rest;
    case _ =>
      UnescapePlain(c, rest);
  }

  /** A character other than the five special ones starts no entity, so it
      decodes as itself. */
  lemma UnescapePlain(c: char, rest: string)
    requires !IsSpecial(c)
    ensures UnescapeXml([c] + rest) == [c] + UnescapeXml(rest)
  {
    var t := [c] + rest;
    assert t[0] == c && t[1..] == rest;
    assert |t| >= 4 ==> t[..4][0] == c;
    assert |t| >= 5 ==> t[..5][0] == c;
    assert |t| >= 6 ==> t[..6][0] == c;
  }

  /** Decoding escaped text gives back the text. */
  lemma {:induction false} UnescapeEscape(s: string)
    ensures UnescapeXml(EscapeXml(s)) == s
  {
    if s != [] {
      UnescapeStep(s[0], EscapeXml(s[1..]));
      UnescapeEscape(s[1..]);
      assert s == [s[0]] + s[1..];
    }
  }

  lemma AppendAssoc(a: string, b: string, c: string)
    ensures (a + b) + c == a + (b + c)
  {
  }

  // ----- the document written for one image -----

  /** One `<object>` as written: the label and the bounds rounded with
      `Math.round` after ordering the corners. */
  datatype VocEntry = VocEntry(cls: string, xmin: int, ymin: int, xmax: int, ymax: int)

  function Rounded(b: Box): (e: VocEntry)
    ensures e.cls == b.cls
    ensures e.xmin as real - 0.5 <= Min(b.x1, b.x2) < e.xmin as real + 0.5
    ensures e.xmax as real - 0.5 <= Max(b.x1, b.x2) < e.xmax as real + 0.5
    ensures e.ymin as real - 0.5 <= Min(b.y1, b.y2) < e.ymin as real + 0.5
    ensures e.ymax as real - 0.5 <= Max(b.y1, b.y2) < e.ymax as real + 0.5
  {
    VocEntry(b.cls, Round(Min(b.x1, b.x2)), Round(Min(b.y1, b.y2)), Round(Max(b.x1, b.x2)), Round(Max(b.y1, b.y2)))
  }

  /** Entries that are written: the others (`xmin >= xmax || ymin >= ymax`) are skipped. */
  predicate Kept(e: VocEntry) {
    e.xmin < e.xmax && e.ymin < e.ymax
  }

  /** The entries written for `boxes`, in order. */
  function VocEntries(boxes: seq<Box>): (r: seq<VocEntry>)
    ensures |r| <= |boxes|
    ensures forall i :: 0 <= i < |r| ==> Kept(r[i])
    decreases |boxes|
  {
    if boxes == [] then []
    else
      var init := VocEntries(boxes[..|boxes| - 1]);
      var e := Rounded(boxes[|boxes| - 1]);
      if Kept(e) then init + [e] else init
  }

  /** A box whose corners lie at least one pixel apart on both axes is always written. */
  lemma WideBoxKept(b: Box)
    requires Max(b.x1, b.x2) - Min(b.x1, b.x2) >= 1.0 && Max(b.y1, b.y2) - Min(b.y1, b.y2) >= 1.0
    ensures Kept(Rounded(b))
  {
  }

  /** Every box is written, and in order, when all of them are kept. */
  lemma {:induction false} VocEntriesAllKept(boxes: seq<Box>)
    requires forall i :: 0 <= i < |boxes| ==> Kept(Rounded(boxes[i]))
    ensures VocEntries(boxes) == seq(|boxes|, i requires 0 <= i < |boxes| => Rounded(boxes[i]))
    decreases |boxes|
  {
    if boxes != [] {
      VocEntriesAllKept(boxes[..|boxes| - 1]);
    }
  }

  function EntryXml(e: VocEntry): string {
    "\t<object>\n"
    + "\t\t<name>" + EscapeXml(e.cls) + "</name>\n"
    + "\t\t<pose>Unspecified</pose>\n"
    + "\t\t<truncated>0</truncated>\n"
    + "\t\t<difficult>0</difficult>\n"
    + "\t\t<bndbox>\n"
    + "\t\t\t<xmin>" + IntToString(e.xmin) + "</xmin>\n"
    + "\t\t\t<ymin>" + IntToString(e.ymin) + "</ymin>\n"
    + "\t\t\t<xmax>" + IntToString(e.xmax) + "</xmax>\n"
    + "\t\t\t<ymax>" + IntToString(e.ymax) + "</ymax>\n"
    + "\t\t</bndbox>\n"
    + "\t</object>\n"
  }

  function ObjectsXml(es: seq<VocEntry>): string
    decreases |es|
  {
    if es == [] then [] else ObjectsXml(es[..|es| - 1]) + EntryXml(es[|es| - 1])
  }

  /** Everything before the first `<object>`: folder, escaped file name,
      source, size with depth 3, and the segmented flag. */
  function Header(filename: string, imgW: real, imgH: real): string {
    "<annotation>\n"
    + "\t<folder>unknown</folder>\n"
    + "\t<filename>" + EscapeXml(filename) + "</filename>\n"
    + "\t<source>\n\t\t<database>Unknown</database>\n\t</source>\n"
    + "\t<size>\n"
    + "\t\t<width>" + IntToString(Round(imgW)) + "</width>\n"
    + "\t\t<height>" + IntToString(Round(imgH)) + "</height>\n"
    + "\t\t<depth>3</depth>\n"
    + "\t</size>\n"
    + "\t<segmented>0</segmented>\n"
  }

  const FOOTER: string := "</annotation>"

  /** The document `createPascalVocXml` returns. */
  function VocXml(filename: string, imgW: real, imgH: real, boxes: seq<Box>): string {
    Header(filename, imgW, imgH) + ObjectsXml(VocEntries(boxes)) + FOOTER
  }

  /** One more box adds its `<object>` when it is kept, and nothing otherwise. */
  lemma ObjectsStep(boxes: seq<Box>, i: nat)
    requires i < |boxes|
    ensures var e := Rounded(boxes[i]);
      ObjectsXml(VocEntries(boxes[..i + 1])) ==
        ObjectsXml(VocEntries(boxes[..i])) + (if Kept(e) then EntryXml(e) else [])
  {
    assert boxes[..i + 1][..i] == boxes[..i];
  }

  /** `createPascalVocXml`: the document built with `+=`, one `<object>` per
      kept box in box order. */
  method CreatePascalVocXml(filename: string, imgW: real, imgH: real, boxes: seq<Box>) returns (xml: string)
    ensures xml == VocXml(filename, imgW, imgH, boxes)
  {
    var header := Header(filename, imgW, imgH);
    xml := header;
    ghost var objects: string := [];
    for i := 0 to |boxes|
      invariant objects == ObjectsXml(VocEntries(boxes[..i]))
      invariant xml == header + objects
    {
      var e := Rounded(boxes[i]);
      ObjectsStep(boxes, i);
      if Kept(e) {
        var entry := EntryXml(e);
        AppendAssoc(header, objects, entry);
        xml := xml + entry;
        objects := objects + entry;
      } else {
        assert objects + [] == objects;
      }
    }
    assert boxes[..|boxes|] == boxes;
    xml := xml + FOOTER;
  }

  /** The written label text contains no markup character, so a file name or
      label cannot open or close an element. */
  lemma EscapedTextHasNoMarkup(s: string)
    ensures '<' !in EscapeXml(s) && '>' !in EscapeXml(s)
  {
  }

  // ----- reading -----

  /** A coordinate as `parseFloat` of an element's text yields it: the
      element may be missing, or its text may not be a number. */
  datatype Coord = Absent | NaN | Value(v: real)

  datatype BndBox = BndBox(xmin: Coord, ymin: Coord, xmax: Coord, ymax: Coord)

  /** One `<object>` element: the text of its first `<name>`, and its first `<bndbox>`. */
  datatype VocObject = VocObject(name: Option<string>, bndbox: Option<BndBox>)

  predicate IsValue(c: Coord) {
    c.Value?
  }

  /** The box one object yields, or None when it is skipped: no name or no
      bounding box, an empty label after normalising, or a coordinate that
      is missing or not a number. */
  function ParseObject(o: VocObject): (r: Option<Box>)
    ensures r.None? <==>
              || o.name.None? || o.bndbox.None? || Normalize(o.name.value) == []
              || !IsValue(o.bndbox.value.xmin) || !IsValue(o.bndbox.value.ymin)
              || !IsValue(o.bndbox.value.xmax) || !IsValue(o.bndbox.value.ymax)
    ensures r.Some? ==>
              var bb := o.bndbox.value;
              && r.value.cls == Normalize(o.name.value) && IsNormalLabel(r.value.cls)
              && r.value.x1 <= r.value.x2 && r.value.y1 <= r.value.y2
              && ((r.value.x1 == bb.xmin.v && r.value.x2 == bb.xmax.v) || (r.value.x1 == bb.xmax.v && r.value.x2 == bb.xmin.v))
              && ((r.value.y1 == bb.ymin.v && r.value.y2 == bb.ymax.v) || (r.value.y1 == bb.ymax.v && r.value.y2 == bb.ymin.v))
  {
    if o.name.None? || o.bndbox.None? then None
    else
      var cls := Normalize(o.name.value);
      var bb := o.bndbox.value;
      if cls == [] then None
      else if !IsValue(bb.xmin) || !IsValue(bb.ymin) || !IsValue(bb.xmax) || !IsValue(bb.ymax) then None
      else
        NormalizedIsNormal(o.name.value);
        Some(Box(Min(bb.xmin.v, bb.xmax.v), Min(bb.ymin.v, bb.ymax.v),
                 Max(bb.xmin.v, bb.xmax.v), Max(bb.ymin.v, bb.ymax.v), cls))
  }

  /** The boxes `parsePascalVoc` returns for the objects of a document, in order. */
  function ParseVoc(objs: seq<VocObject>): (r: seq<Box>)
    ensures |r| <= |objs|
    decreases |objs|
  {
    if objs == [] then []
    else
      var init := ParseVoc(objs[..|objs| - 1]);
      var b := ParseObject(objs[|objs| - 1]);
      if b.Some? then init + [b.value] else init
  }

  /** What every box read from a document satisfies: a normal label and
      ordered corners. */
  predicate WellRead(b: Box) {
    IsNormalLabel(b.cls) && b.x1 <= b.x2 && b.y1 <= b.y2
  }

  /** Every box read from a document is well read. */
  lemma {:induction false} ParseVocWellFormed(objs: seq<VocObject>)
    ensures forall i :: 0 <= i < |ParseVoc(objs)| ==> WellRead(ParseVoc(objs)[i])
    decreases |objs|
  {
    if objs != [] {
      var init := ParseVoc(objs[..|objs| - 1]);
      ParseVocWellFormed(objs[..|objs| - 1]);
      var b := ParseObject(objs[|objs| - 1]);
      var r := ParseVoc(objs);
      if b.Some? {
        assert r == init + [b.value];
        forall i | 0 <= i < |r| ensures WellRead(r[i]) {
          if i < |init| {
            assert r[i] == init[i];
          } else {
            assert r[i] == b.value;
          }
        }
      } else {
        assert r == init;
      }
    }
  }

  /** `parsePascalVoc`: the `for..of` over the objects pushing each box read. */
  method ParsePascalVoc(objs: seq<VocObject>) returns (boxes: seq<Box>)
    ensures boxes == ParseVoc(objs)
  {
    boxes := [];
    for i := 0 to |objs|
      invariant boxes == ParseVoc(objs[..i])
    {
      assert objs[..i + 1][..i] == objs[..i];
      var b := ParseObject(objs[i]);
      if b.Some? {
        boxes := boxes + [b.value];
      }
    }
    assert objs[..|objs|] == objs;
  }

  // ----- round trip -----

  /** Reading a numeral this export writes: the value of an optional minus
      sign followed by digits (what `parseFloat` yields for such text). */
  function ReadNumeral(t: string): Coord {
    match ParseInt(t)
    case Some(v) => Value(v as real)
    case None => NaN
  }

  /** The record a parser yields for the `<object>` that `EntryXml(e)` writes:
      the entity-decoded name text and the four numerals read back. */
  function ReadBack(e: VocEntry): VocObject {
    VocObject(Some(UnescapeXml(EscapeXml(e.cls))),
              Some(BndBox(ReadNumeral(IntToString(e.xmin)), ReadNumeral(IntToString(e.ymin)),
                          ReadNumeral(IntToString(e.xmax)), ReadNumeral(IntToString(e.ymax)))))
  }

  function ReadBackAll(es: seq<VocEntry>): (r: seq<VocObject>)
    ensures |r| == |es|
    decreases |es|
  {
    if es == [] then [] else ReadBackAll(es[..|es| - 1]) + [ReadBack(es[|es| - 1])]
  }

  /** The box a written entry stands for. */
  function EntryBox(e: VocEntry): Box {
    Box(e.xmin as real, e.ymin as real, e.xmax as real, e.ymax as real, e.cls)
  }

  function EntryBoxes(es: seq<VocEntry>): (r: seq<Box>)
    ensures |r| == |es|
    decreases |es|
  {
    if es == [] then [] else EntryBoxes(es[..|es| - 1]) + [EntryBox(es[|es| - 1])]
  }

  /** A written object reads back as its entry's label and numbers. */
  lemma ReadBackFields(e: VocEntry)
    ensures ReadBack(e) == VocObject(Some(e.cls), Some(BndBox(Value(e.xmin as real), Value(e.ymin as real),
                                                               Value(e.xmax as real), Value(e.ymax as real))))
  {
    UnescapeEscape(e.cls);
    IntToStringRoundTrip(e.xmin);
    IntToStringRoundTrip(e.ymin);
    IntToStringRoundTrip(e.xmax);
    IntToStringRoundTrip(e.ymax);
  }

  /** A written object with a normal label reads back as its entry's box. */
  lemma ReadBackEntry(e: VocEntry)
    requires Kept(e) && IsNormalLabel(e.cls)
    ensures ParseObject(ReadBack(e)) == Some(EntryBox(e))
  {
    var x1, y1, x2, y2 := e.xmin as real, e.ymin as real, e.xmax as real, e.ymax as real;
    assert x1 < x2 && y1 < y2;
    assert Min(x1, x2) == x1 && Max(x1, x2) == x2 && Min(y1, y2) == y1 && Max(y1, y2) == y2;
    NormalLabelMeans(e.cls);
    var o := VocObject(Some(e.cls), Some(BndBox(Value(x1), Value(y1), Value(x2), Value(y2))));
    assert ParseObject(o) == Some(Box(x1, y1, x2, y2, e.cls));
    ReadBackFields(e);
  }

  /** The objects written for kept entries with normal labels read back as
      the entries' boxes, in order. */
  lemma {:induction false} ParseReadBack(es: seq<VocEntry>)
    requires forall i :: 0 <= i < |es| ==> Kept(es[i]) && IsNormalLabel(es[i].cls)
    ensures ParseVoc(ReadBackAll(es)) == EntryBoxes(es)
    decreases |es|
  {
    if es != [] {
      var init, last := es[..|es| - 1], es[|es| - 1];
      ParseReadBack(init);
      ReadBackEntry(last);
      var objs := ReadBackAll(es);
      assert objs[..|objs| - 1] == ReadBackAll(init);
      assert objs[|objs| - 1] == ReadBack(last);
    }
  }

  /** The labels written are labels of the boxes. */
  lemma {:induction false} VocEntriesNormal(boxes: seq<Box>)
    requires forall i :: 0 <= i < |boxes| ==> IsNormalLabel(boxes[i].cls)
    ensures forall i :: 0 <= i < |VocEntries(boxes)| ==> IsNormalLabel(VocEntries(boxes)[i].cls)
    decreases |boxes|
  {
    if boxes != [] {
      var init := boxes[..|boxes| - 1];
      assert forall i :: 0 <= i < |init| ==> init[i] == boxes[i];
      VocEntriesNormal(init);
      assert Rounded(boxes[|boxes| - 1]).cls == boxes[|boxes| - 1].cls;
    }
  }

  /** Reading back the objects written for boxes with normal labels gives
      the boxes that were written, rounded, in order. */
  lemma ParseAfterWrite(boxes: seq<Box>)
    requires forall i :: 0 <= i < |boxes| ==> IsNormalLabel(boxes[i].cls)
    ensures ParseVoc(ReadBackAll(VocEntries(boxes))) == EntryBoxes(VocEntries(boxes))
  {
    VocEntriesNormal(boxes);
    ParseReadBack(VocEntries(boxes));
  }

  /** Writing the boxes read back from a document writes the same objects
      again: export, import, export is export. */
  lemma {:induction false} WriteAfterRead(es: seq<VocEntry>)
    requires forall i :: 0 <= i < |es| ==> Kept(es[i])
    ensures VocEntries(EntryBoxes(es)) == es
    decreases |es|
  {
    if es != [] {
      var bs := EntryBoxes(es);
      var init, e := es[..|es| - 1], es[|es| - 1];
      WriteAfterRead(init);
      assert bs[..|bs| - 1] == EntryBoxes(init);
      RoundInt(e.xmin);
      RoundInt(e.ymin);
      RoundInt(e.xmax);
      RoundInt(e.ymax);
      assert Rounded(bs[|bs| - 1]) == e;
      assert es == init + [e];
    }
  }
}
