/** File names: the base name `name.replace(/\.[^/.]+$/, "")`, the image an
    annotation file is merged into, the export file names, and the names and
    rectangles of the crops `saveCrops` cuts out of the current image. */
module Names {
  import opened Base
  import opened Decimal
  import opened Store

  // ----- base names -----

  /** `k` is where the regex `/\.[^/.]+$/` matches: a dot followed by at
      least one character, none of them a dot or a slash, up to the end. */
  predicate ExtensionAt(s: string, k: int) {
    0 <= k < |s| - 1 && s[k] == '.' && forall j :: k < j < |s| ==> s[j] != '.' && s[j] != '/'
  }

  /** The number of trailing characters that are neither a dot nor a slash. */
  function TailLength(s: string): (n: nat)
    ensures n <= |s|
    ensures forall j :: |s| - n <= j < |s| ==> s[j] != '.' && s[j] != '/'
    ensures n < |s| ==> s[|s| - n - 1] == '.' || s[|s| - n - 1] == '/'
    decreases |s|
  {
    if s == [] || s[|s| - 1] == '.' || s[|s| - 1] == '/' then 0
    else TailLength(s[..|s| - 1]) + 1
  }

  /** `name.replace(/\.[^/.]+$/, "")`: the text before the extension, or the
      whole name when it has none. */
  function StripExtension(s: string): (r: string)
    ensures forall k :: ExtensionAt(s, k) ==> r == s[..k]
    ensures (forall k :: !ExtensionAt(s, k)) ==> r == s
  {
    forall k | ExtensionAt(s, k) ensures TailLength(s) == |s| - k - 1 {
      ExtensionIsTail(s, k);
    }
    var n := TailLength(s);
    if 0 < n < |s| && s[|s| - n - 1] == '.' then
      assert ExtensionAt(s, |s| - n - 1);
      s[..|s| - n - 1]
    else s
  }

  /** The extension is exactly the trailing run of characters other than
      dots and slashes. */
  lemma ExtensionIsTail(s: string, k: int)
    requires ExtensionAt(s, k)
    ensures TailLength(s) == |s| - k - 1
  {
  }

  /** There is at most one extension, and stripping changes a name exactly
      when it has one. */
  lemma StripChangesIffExtension(s: string)
    ensures StripExtension(s) != s <==> exists k :: ExtensionAt(s, k)
    ensures forall k, k' :: ExtensionAt(s, k) && ExtensionAt(s, k') ==> k == k'
  {
    forall k | ExtensionAt(s, k) ensures StripExtension(s) != s {
      assert |StripExtension(s)| == k;
    }
  }

  /** Stripping undoes appending a dot and an extension. */
  lemma StripAppended(name: string, ext: string)
    requires ext != [] && forall j :: 0 <= j < |ext| ==> ext[j] != '.' && ext[j] != '/'
    ensures StripExtension(name + "." + ext) == name
  {
    var s := name + "." + ext;
    assert forall j :: |name| < j < |s| ==> s[j] == ext[j - |name| - 1];
    assert ExtensionAt(s, |name|);
    assert s[..|name|] == name;
  }

  // ----- the image an annotation file belongs to -----

  /** `images.find(f => f.name.replace(/\.[^/.]+$/, "") === base)`, as an index. */
  function FirstWithBase(images: seq<string>, base: string): (r: Option<nat>)
    ensures r.None? <==> forall i :: 0 <= i < |images| ==> StripExtension(images[i]) != base
    ensures r.Some? ==> r.value < |images| && StripExtension(images[r.value]) == base
    ensures r.Some? ==> forall i :: 0 <= i < r.value ==> StripExtension(images[i]) != base
  {
    FindBaseFrom(images, base, 0)
  }

  /** The search of `FirstWithBase` from position `from` on. */
  function FindBaseFrom(images: seq<string>, base: string, from: nat): (r: Option<nat>)
    requires from <= |images|
    ensures r.None? <==> forall i :: from <= i < |images| ==> StripExtension(images[i]) != base
    ensures r.Some? ==> from <= r.value < |images| && StripExtension(images[r.value]) == base
    ensures r.Some? ==> forall i :: from <= i < r.value ==> StripExtension(images[i]) != base
    decreases |images| - from
  {
    if from == |images| then None
    else if StripExtension(images[from]) == base then Some(from)
    else FindBaseFrom(images, base, from + 1)
  }

  /** The image the annotation file `xmlName` is merged into, given the text
      `fromXml` of its first `<filename>` element: that image when the text
      is non-empty and an image has that name, else the first image with the
      annotation file's base name; None when there is none. */
  function ResolveTarget(xmlName: string, fromXml: Option<string>, images: seq<string>): (r: Option<string>)
    ensures r.Some? ==> r.value in images
    ensures fromXml.Some? && fromXml.value != [] && fromXml.value in images ==> r == fromXml
    ensures !(fromXml.Some? && fromXml.value != [] && fromXml.value in images) ==>
              (r.None? <==> forall i :: 0 <= i < |images| ==> StripExtension(images[i]) != StripExtension(xmlName))
    ensures !(fromXml.Some? && fromXml.value != [] && fromXml.value in images) && r.Some? ==>
              exists k :: 0 <= k < |images| && images[k] == r.value
                && StripExtension(images[k]) == StripExtension(xmlName)
                && forall i :: 0 <= i < k ==> StripExtension(images[i]) != StripExtension(xmlName)
  {
    if fromXml.Some? && fromXml.value != [] && fromXml.value in images then fromXml
    else
      match FirstWithBase(images, StripExtension(xmlName))
      case None => None
      case Some(k) => Some(images[k])
  }

  /** The name the annotation file of image `name` is exported under. */
  function VocFileName(name: string): string {
    StripExtension(name) + ".xml"
  }

  function YoloFileName(name: string): string {
    StripExtension(name) + ".txt"
  }

  /** An exported annotation file, loaded back without a usable `<filename>`,
      is merged into an image with the same base name as the one it was
      exported from. */
  lemma ExportedFileFindsImage(name: string, images: seq<string>)
    requires name in images
    ensures var r := ResolveTarget(VocFileName(name), None, images);
      r.Some? && StripExtension(r.value) == StripExtension(name)
  {
    var xml := VocFileName(name);
    StripAppended(StripExtension(name), "xml");
    assert StripExtension(name) + "." + "xml" == xml;
    var k :| 0 <= k < |images| && images[k] == name;
    assert StripExtension(images[k]) == StripExtension(xml);
    var r := ResolveTarget(xml, None, images);
    var j :| 0 <= j < |images| && images[j] == r.value && StripExtension(images[j]) == StripExtension(xml);
  }

  /** `file.name.toLowerCase().endsWith('.xml')`. */
  function IsXmlName(name: string): (b: bool)
    ensures b <==> && |name| >= 4 && name[|name| - 4] == '.'
                   && (name[|name| - 3] == 'x' || name[|name| - 3] == 'X')
                   && (name[|name| - 2] == 'm' || name[|name| - 2] == 'M')
                   && (name[|name| - 1] == 'l' || name[|name| - 1] == 'L')
  {
    var t := Labels.ToLower(name);
    |t| >= 4 && t[|t| - 4..] == ".xml"
  }

  // ----- crops -----

  /** The characters `replace(/[^a-z0-9]/gi, '_')` keeps. */
  predicate IsAlnum(c: char) {
    'a' <= c <= 'z' || 'A' <= c <= 'Z' || '0' <= c <= '9'
  }

  /** The number of UTF-16 code units of a character: two (a surrogate
      pair) outside the Basic Multilingual Plane. */
  function CodeUnits(c: char): nat {
    if c as int >= 0x10000 then 2 else 1
  }

  /** The JavaScript `length` of a text: its number of UTF-16 code units. */
  function Utf16Length(s: string): (n: nat)
    ensures n >= |s|
  {
    if s == [] then 0 else CodeUnits(s[0]) + Utf16Length(s[1..])
  }

  /** What the sanitiser writes for one character. The regex has no `u`
      flag, so it replaces each UTF-16 code unit: a character outside the
      Basic Multilingual Plane becomes two underscores. */
  function SanitizeChar(c: char): (r: string)
    ensures IsAlnum(c) ==> r == [c]
    ensures !IsAlnum(c) ==> |r| == CodeUnits(c) && forall k :: 0 <= k < |r| ==> r[k] == '_'
  {
    if IsAlnum(c) then [c] else if c as int >= 0x10000 then "__" else "_"
  }

  /** The label as it appears in a crop file name. */
  function SanitizeLabel(s: string): (r: string)
    ensures |r| == Utf16Length(s)
    ensures forall k :: 0 <= k < |r| ==> IsAlnum(r[k]) || r[k] == '_'
  {
    if s == [] then [] else SanitizeChar(s[0]) + SanitizeLabel(s[1..])
  }

  /** The sanitiser works character by character. */
  lemma {:induction false} SanitizeConcat(a: string, b: string)
    ensures SanitizeLabel(a + b) == SanitizeLabel(a) + SanitizeLabel(b)
    decreases |a|
  {
    if a == [] {
      assert a + b == b;
    } else {
      assert (a + b)[1..] == a[1..] + b;
      SanitizeConcat(a[1..], b);
    }
  }

  /** A label is written unchanged exactly when every character is a letter,
      a digit or `_`. */
  lemma {:induction false} SanitizeKeeps(s: string)
    ensures SanitizeLabel(s) == s <==> forall k :: 0 <= k < |s| ==> IsAlnum(s[k]) || s[k] == '_'
    decreases |s|
  {
    if s != [] {
      SanitizeKeeps(s[1..]);
      var r := SanitizeLabel(s);
      if r == s {
        assert SanitizeLabel(s[1..]) == r[|SanitizeChar(s[0])|..];
      }
    }
  }

  /** A character outside the Basic Multilingual Plane gives two underscores,
      one per UTF-16 code unit. */
  lemma SanitizeAstral()
    ensures SanitizeLabel("a\U{1F600}") == "a__"
  {
  }

  /** Sanitising a sanitised label changes nothing. */
  lemma SanitizeIdempotent(s: string)
    ensures SanitizeLabel(SanitizeLabel(s)) == SanitizeLabel(s)
  {
    SanitizeKeeps(SanitizeLabel(s));
  }

  /** `${baseFilename}_${label}_${index}.${fileExtension}`. */
  function CropFilename(base: string, cls: string, index: nat, ext: string): string {
    base + "_" + SanitizeLabel(cls) + "_" + NatToString(index) + "." + ext
  }

  /** Two texts ending in `_` and a run of digits: equal texts have equal runs. */
  lemma DigitsAfterLastUnderscore(a: string, d: string, b: string, e: string)
    requires AllDigits(d) && AllDigits(e)
    requires a + "_" + d == b + "_" + e
    ensures d == e
  {
    var s := a + "_" + d;
    assert s[|a|] == '_' && s[|b|] == '_';
    assert forall j :: |a| < j < |s| ==> s[j] == d[j - |a| - 1];
    assert forall j :: |b| < j < |s| ==> s[j] == e[j - |b| - 1];
    assert |d| == |e|;
    assert s[|s| - |d|..] == d;
  }

  /** Crops of the same image with different positions get different file
      names, whatever their labels. */
  lemma CropFilenamesDistinct(base: string, l1: string, l2: string, i: nat, j: nat, ext: string)
    requires i != j
    ensures CropFilename(base, l1, i, ext) != CropFilename(base, l2, j, ext)
  {
    var s1 := base + "_" + SanitizeLabel(l1) + "_" + NatToString(i);
    var s2 := base + "_" + SanitizeLabel(l2) + "_" + NatToString(j);
    if CropFilename(base, l1, i, ext) == CropFilename(base, l2, j, ext) {
      assert CropFilename(base, l1, i, ext) == s1 + ("." + ext);
      assert CropFilename(base, l2, j, ext) == s2 + ("." + ext);
      assert |s1| == |s2|;
      assert s1 == CropFilename(base, l1, i, ext)[..|s1|];
      DigitsAfterLastUnderscore(base + "_" + SanitizeLabel(l1), NatToString(i),
                                base + "_" + SanitizeLabel(l2), NatToString(j));
      NatToStringInjective(i, j);
    }
  }

  /** The source rectangle of one crop, in whole image pixels. */
  datatype Crop = Crop(x: int, y: int, w: int, h: int)

  /** The rectangle a box is cut out with, or None when a rounded side is
      zero and the crop is skipped. */
  function CropOf(b: Box): (r: Option<Crop>)
    ensures r.None? <==> Abs(b.x2 - b.x1) < 0.5 || Abs(b.y2 - b.y1) < 0.5
    ensures r.Some? ==> r.value.w >= 1 && r.value.h >= 1
    ensures r.Some? ==> && r.value.x as real - 0.5 <= Min(b.x1, b.x2) < r.value.x as real + 0.5
                        && r.value.y as real - 0.5 <= Min(b.y1, b.y2) < r.value.y as real + 0.5
                        && r.value.w as real - 0.5 <= Abs(b.x2 - b.x1) < r.value.w as real + 0.5
                        && r.value.h as real - 0.5 <= Abs(b.y2 - b.y1) < r.value.h as real + 0.5
  {
    var x, y := Round(Min(b.x1, b.x2)), Round(Min(b.y1, b.y2));
    var w, h := Round(Abs(b.x2 - b.x1)), Round(Abs(b.y2 - b.y1));
    if w <= 0 || h <= 0 then None else Some(Crop(x, y, w, h))
  }

  /** One crop written: the position of its box, the rectangle and the file name. */
  datatype CropJob = CropJob(index: nat, rect: Crop, filename: string)

  /** The crops `boxes.forEach` produces for the first `n` boxes, in order. */
  function CropJobs(base: string, ext: string, boxes: seq<Box>, n: nat): (r: seq<CropJob>)
    requires n <= |boxes|
    ensures |r| <= n
    ensures forall k :: 0 <= k < |r| ==> && r[k].index < n && CropOf(boxes[r[k].index]) == Some(r[k].rect)
                                           && r[k].filename == CropFilename(base, boxes[r[k].index].cls, r[k].index, ext)
    ensures forall k, l :: 0 <= k < l < |r| ==> r[k].index < r[l].index
  {
    if n == 0 then []
    else
      var init := CropJobs(base, ext, boxes, n - 1);
      match CropOf(boxes[n - 1])
      case None => init
      case Some(c) => init + [CropJob(n - 1, c, CropFilename(base, boxes[n - 1].cls, n - 1, ext))]
  }

  /** Every box whose crop is not skipped is cut out. */
  lemma {:induction false} CropJobsComplete(base: string, ext: string, boxes: seq<Box>, n: nat, i: nat)
    requires i < n <= |boxes| && CropOf(boxes[i]).Some?
    ensures exists k :: 0 <= k < |CropJobs(base, ext, boxes, n)| && CropJobs(base, ext, boxes, n)[k].index == i
  {
    var r := CropJobs(base, ext, boxes, n);
    if i == n - 1 {
      assert r[|r| - 1].index == i;
    } else {
      CropJobsComplete(base, ext, boxes, n - 1, i);
      var init := CropJobs(base, ext, boxes, n - 1);
      var k :| 0 <= k < |init| && init[k].index == i;
      assert r[k] == init[k];
    }
  }

  /** No crop overwrites another: the file names are pairwise different. */
  lemma CropFilenamesUnique(base: string, ext: string, boxes: seq<Box>)
    ensures var r := CropJobs(base, ext, boxes, |boxes|);
      forall k, l :: 0 <= k < l < |r| ==> r[k].filename != r[l].filename
  {
    var r := CropJobs(base, ext, boxes, |boxes|);
    forall k, l | 0 <= k < l < |r| ensures r[k].filename != r[l].filename {
      CropFilenamesDistinct(base, boxes[r[k].index].cls, boxes[r[l].index].cls, r[k].index, r[l].index, ext);
    }
  }

  /** `cropFormatSelect.value || 'png'`. */
  function CropFormat(selected: string): (f: string)
    ensures f != []
    ensures selected != [] ==> f == selected
  {
    if selected == [] then "png" else selected
  }

  const CROP_FORMATS: seq<string> := ["png", "jpeg", "webp", "gif", "bmp"]

  /** `mimeTypeMap[format] || 'image/png'`. */
  function MimeType(format: string): (m: string)
    ensures format in CROP_FORMATS ==> m == "image/" + format
    ensures format !in CROP_FORMATS ==> m == "image/png"
  {
    if format in CROP_FORMATS then "image/" + format else "image/png"
  }
}
