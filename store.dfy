/** The annotation store: per image file name, the ordered list of boxes, and
    the set of known classes. The central rule is one box per class per image;
    every path that creates or relabels a box checks it. */
module Store {
  import opened Base
  import opened Viewport
  import opened Labels

  /** The smallest on-screen extent, in CSS pixels, a drawn box may have. */
  const MIN_BOX_SIZE_PX: real := 4.0

  /** A box in image pixels. The corners are not ordered in general: a resize
      in progress can leave `x1 > x2` until it is committed. */
  datatype Box = Box(x1: real, y1: real, x2: real, y2: real, cls: string)

  /** Natural pixel size of an image, as `imageDimensionsCache` keeps it. */
  datatype Dims = Dims(w: int, h: int)

  predicate HasLabel(anns: seq<Box>, cls: string) {
    exists i :: 0 <= i < |anns| && anns[i].cls == cls
  }

  predicate UniqueLabels(anns: seq<Box>) {
    forall i, j :: 0 <= i < j < |anns| ==> anns[i].cls != anns[j].cls
  }

  /** What the store keeps true of the boxes of one image. */
  predicate ImageInvariant(anns: seq<Box>, known: set<string>) {
    && UniqueLabels(anns)
    && forall i :: 0 <= i < |anns| ==> anns[i].cls in known
  }

  /** What the store keeps true of all images and the known classes. */
  predicate StoreInvariant(annotations: map<string, seq<Box>>, known: set<string>) {
    && (forall name :: name in annotations ==> ImageInvariant(annotations[name], known))
    && (forall c :: c in known ==> IsNormalLabel(c))
  }

  /** A box with area. */
  predicate IsProper(b: Box) {
    b.x1 < b.x2 && b.y1 < b.y2
  }

  /** Inside `[0, W] x [0, H]` when the size of the image is known. */
  predicate InsideImage(b: Box, dims: Option<Dims>) {
    dims.Some? ==> 0.0 <= b.x1 && b.x2 <= dims.value.w as real && 0.0 <= b.y1 && b.y2 <= dims.value.h as real
  }

  predicate InBox(b: Box, q: Point) {
    b.x1 <= q.x <= b.x2 && b.y1 <= q.y <= b.y2
  }

  predicate InSpan(a: real, b: real, v: real) {
    Min(a, b) <= v <= Max(a, b)
  }

  predicate InImage(dims: Option<Dims>, q: Point) {
    dims.Some? ==> 0.0 <= q.x <= dims.value.w as real && 0.0 <= q.y <= dims.value.h as real
  }

  /** The box spanned by two image points, with ordered corners, and clamped
      to the image when its size is known (the step shared by draw and resize
      commit). */
  function NormalizedClamped(a: Point, b: Point, dims: Option<Dims>, cls: string): (r: Box)
    ensures r.cls == cls
    ensures r.x1 <= r.x2 && r.y1 <= r.y2 ==> InsideImage(r, dims) || dims.None?
    ensures forall q :: InBox(r, q) <==> InSpan(a.x, b.x, q.x) && InSpan(a.y, b.y, q.y) && InImage(dims, q)
  {
    var x1, y1, x2, y2 := Min(a.x, b.x), Min(a.y, b.y), Max(a.x, b.x), Max(a.y, b.y);
    match dims
    case None => Box(x1, y1, x2, y2, cls)
    case Some(d) => Box(Max(0.0, x1), Max(0.0, y1), Min(d.w as real, x2), Min(d.h as real, y2), cls)
  }

  /** A proper normalised and clamped box lies inside the image. */
  lemma ProperClampedInside(a: Point, b: Point, dims: Option<Dims>, cls: string)
    requires IsProper(NormalizedClamped(a, b, dims, cls))
    ensures InsideImage(NormalizedClamped(a, b, dims, cls), dims)
  {
  }

  // ----- draw commit -----

  datatype DrawOutcome = TooSmall | NoClass | Duplicate(cls: string) | Degenerate | Added(box: Box)

  /** The drag covers at least `MIN_BOX_SIZE_PX` CSS pixels in both directions. */
  predicate BigEnough(start: Point, end: Point, dpr: real)
    requires dpr > 0.0
  {
    Abs(end.x - start.x) / dpr >= MIN_BOX_SIZE_PX && Abs(end.y - start.y) / dpr >= MIN_BOX_SIZE_PX
  }

  /** The mouse-up of a draw gesture from canvas point `start` to `end` with
      `chosen` the selected class (None when no usable option is selected). */
  function CommitDraw(t: Transform, start: Point, end: Point, dpr: real, chosen: Option<string>,
                      existing: seq<Box>, dims: Option<Dims>): (r: DrawOutcome)
    requires dpr > 0.0
    ensures r.TooSmall? <==> !BigEnough(start, end, dpr)
    ensures r.NoClass? <==> BigEnough(start, end, dpr) && (chosen.None? || chosen.value == "")
    ensures r.Duplicate? <==> BigEnough(start, end, dpr) && chosen.Some? && chosen.value != ""
                              && HasLabel(existing, chosen.value)
    ensures r.Duplicate? ==> r.cls == chosen.value
    ensures r.Added? || r.Degenerate? <==>
              BigEnough(start, end, dpr) && chosen.Some? && chosen.value != "" && !HasLabel(existing, chosen.value)
    ensures r.Added? ==>
              && r.box.cls == chosen.value
              && IsProper(r.box) && InsideImage(r.box, dims)
              && var a, b := CanvasToImage(t, start), CanvasToImage(t, end);
                 forall q :: InBox(r.box, q) <==> InSpan(a.x, b.x, q.x) && InSpan(a.y, b.y, q.y) && InImage(dims, q)
    ensures r.Degenerate? ==>
              var a, b := CanvasToImage(t, start), CanvasToImage(t, end);
              !IsProper(NormalizedClamped(a, b, dims, chosen.value))
  {
    if !BigEnough(start, end, dpr) then TooSmall
    else if chosen.None? || chosen.value == "" then NoClass
    else if HasLabel(existing, chosen.value) then Duplicate(chosen.value)
    else
      var box := NormalizedClamped(CanvasToImage(t, start), CanvasToImage(t, end), dims, chosen.value);
      if IsProper(box) then Added(box) else Degenerate
  }

  /** The store after a draw commit: the new box, if any, goes at the end. */
  function AfterDraw(existing: seq<Box>, outcome: DrawOutcome): seq<Box> {
    if outcome.Added? then existing + [outcome.box] else existing
  }

  /** A successful draw appends exactly one box, keeps the others, and keeps
      the labels unique; any other outcome changes nothing. */
  lemma DrawKeepsInvariant(t: Transform, start: Point, end: Point, dpr: real, chosen: Option<string>,
                           existing: seq<Box>, dims: Option<Dims>, known: set<string>)
    requires dpr > 0.0
    requires ImageInvariant(existing, known)
    requires chosen.Some? ==> chosen.value in known
    ensures var r := CommitDraw(t, start, end, dpr, chosen, existing, dims);
      var after := AfterDraw(existing, r);
      && ImageInvariant(after, known)
      && (r.Added? ==> |after| == |existing| + 1 && after[..|existing|] == existing && after[|existing|] == r.box)
      && (!r.Added? ==> after == existing)
  {
    var r := CommitDraw(t, start, end, dpr, chosen, existing, dims);
    if r.Added? {
      var after := existing + [r.box];
      assert after[..|existing|] == existing;
      forall i, j | 0 <= i < j < |after| ensures after[i].cls != after[j].cls {
        if j == |existing| {
          assert existing[i].cls != r.box.cls;
        }
      }
    }
  }

  /** Changing the geometry of one box, and not its label, keeps the image's invariant. */
  lemma ReplaceKeepsInvariant(anns: seq<Box>, i: nat, b: Box, known: set<string>)
    requires i < |anns| && ImageInvariant(anns, known) && b.cls == anns[i].cls
    ensures ImageInvariant(anns[i := b], known)
  {
    var r := anns[i := b];
    forall j, k | 0 <= j < k < |r| ensures r[j].cls != r[k].cls {
      assert r[j].cls == anns[j].cls && r[k].cls == anns[k].cls;
    }
  }

  /** Replacing the boxes of one image by boxes that keep the image
      invariant keeps the store invariant. */
  lemma StoreUpdate(annotations: map<string, seq<Box>>, known: set<string>, name: string, anns: seq<Box>)
    requires StoreInvariant(annotations, known) && ImageInvariant(anns, known)
    ensures StoreInvariant(annotations[name := anns], known)
  {
  }

  // ----- label edit -----

  datatype EditOutcome = Cancelled | Empty | NotAClass(cls: string) | Taken(cls: string) | Same | Renamed(cls: string)

  /** Another box than the `i`-th carries `cls`. */
  predicate OtherHasLabel(anns: seq<Box>, i: nat, cls: string) {
    exists j :: 0 <= j < |anns| && j != i && anns[j].cls == cls
  }

  /** The collision loop of the label edit (the `for` over the image's boxes
      that stops at the first other box carrying the new label). */
  method FindOtherWithLabel(anns: seq<Box>, i: nat, cls: string) returns (found: bool)
    ensures found <==> OtherHasLabel(anns, i, cls)
  {
    found := false;
    var k := 0;
    while k < |anns|
      invariant 0 <= k <= |anns|
      invariant !found
      invariant forall j :: 0 <= j < k && j != i ==> anns[j].cls != cls
    {
      if k != i && anns[k].cls == cls {
        found := true;
        return;
      }
      k := k + 1;
    }
  }

  /** The label edit of box `i` with `input` the text the prompt returned
      (None when it was dismissed). */
  function EditLabel(anns: seq<Box>, i: nat, input: Option<string>, known: set<string>): (r: EditOutcome)
    requires i < |anns|
    ensures r.Cancelled? <==> input.None?
    ensures input.Some? ==>
              var l := Normalize(input.value);
              && (r.Empty? <==> l == [])
              && (r.NotAClass? <==> l != [] && l !in known)
              && (r.Taken? <==> l != [] && l in known && OtherHasLabel(anns, i, l))
              && (r.Same? <==> l != [] && l in known && !OtherHasLabel(anns, i, l) && l == anns[i].cls)
              && (r.Renamed? <==> l != [] && l in known && !OtherHasLabel(anns, i, l) && l != anns[i].cls)
              && (r.NotAClass? || r.Taken? || r.Renamed? ==> r.cls == l)
  {
    match input
    case None => Cancelled
    case Some(text) =>
      var l := Normalize(text);
      if l == [] then Empty
      else if l !in known then NotAClass(l)
      else if OtherHasLabel(anns, i, l) then Taken(l)
      else if l != anns[i].cls then Renamed(l)
      else Same
  }

  /** The checks `onDoubleClick` runs on the prompt's answer, in order. */
  method DecideEdit(anns: seq<Box>, i: nat, input: Option<string>, known: set<string>) returns (r: EditOutcome)
    requires i < |anns|
    ensures r == EditLabel(anns, i, input, known)
  {
    if input.None? {
      return Cancelled;
    }
    var l := Normalize(input.value);
    if l == [] {
      return Empty;
    }
    if l !in known {
      return NotAClass(l);
    }
    var taken := FindOtherWithLabel(anns, i, l);
    if taken {
      return Taken(l);
    }
    if l != anns[i].cls {
      return Renamed(l);
    }
    return Same;
  }

  function AfterEdit(anns: seq<Box>, i: nat, outcome: EditOutcome): seq<Box>
    requires i < |anns|
  {
    if outcome.Renamed? then anns[i := anns[i].(cls := outcome.cls)] else anns
  }

  /** A label edit changes at most the label of box `i`, only to a known class
      that no other box carries, and keeps the store invariant. */
  lemma EditKeepsInvariant(anns: seq<Box>, i: nat, input: Option<string>, known: set<string>)
    requires i < |anns| && ImageInvariant(anns, known)
    ensures var r := EditLabel(anns, i, input, known);
      var after := AfterEdit(anns, i, r);
      && ImageInvariant(after, known)
      && |after| == |anns|
      && (forall j :: 0 <= j < |anns| && j != i ==> after[j] == anns[j])
      && after[i] == anns[i].(cls := after[i].cls)
      && (after[i].cls != anns[i].cls ==> r.Renamed? && after[i].cls == Normalize(input.value))
  {
    var r := EditLabel(anns, i, input, known);
    if r.Renamed? {
      var after := AfterEdit(anns, i, r);
      forall j, k | 0 <= j < k < |after| ensures after[j].cls != after[k].cls {
        if j == i {
          assert anns[k].cls != r.cls;
        } else if k == i {
          assert anns[j].cls != r.cls;
        } else {
          assert after[j] == anns[j] && after[k] == anns[k];
        }
      }
    }
  }

  // ----- delete -----

  /** `splice(index, 1)`: removes the box at `i`; an index past the end removes nothing. */
  function Splice(anns: seq<Box>, i: nat): (r: seq<Box>)
    ensures i < |anns| ==> |r| == |anns| - 1 && multiset(r) + multiset{anns[i]} == multiset(anns)
    ensures i >= |anns| ==> r == anns
  {
    if i < |anns| then
      assert anns == anns[..i] + [anns[i]] + anns[i + 1..];
      anns[..i] + anns[i + 1..]
    else anns
  }

  /** The boxes before `i` stay in place and those after it move down one. */
  lemma SpliceShifts(anns: seq<Box>, i: nat)
    requires i < |anns|
    ensures forall j :: 0 <= j < |Splice(anns, i)| ==> Splice(anns, i)[j] == anns[if j < i then j else j + 1]
  {
  }

  lemma SpliceKeepsInvariant(anns: seq<Box>, i: nat, known: set<string>)
    requires ImageInvariant(anns, known)
    ensures ImageInvariant(Splice(anns, i), known)
  {
    var r := Splice(anns, i);
    if i < |anns| {
      SpliceShifts(anns, i);
      forall j, k | 0 <= j < k < |r| ensures r[j].cls != r[k].cls {
        var j', k' := if j < i then j else j + 1, if k < i then k else k + 1;
        assert r[j] == anns[j'] && r[k] == anns[k'];
      }
    }
  }

  // ----- import merge -----

  /** The incoming boxes the import keeps (`validBoxes`): a box is dropped when
      its label is already on the image or was kept earlier from the same file. */
  function Accepted(existing: seq<Box>, incoming: seq<Box>): seq<Box>
    decreases |incoming|
  {
    if incoming == [] then []
    else
      var kept := Accepted(existing, incoming[..|incoming| - 1]);
      var b := incoming[|incoming| - 1];
      if HasLabel(existing, b.cls) || HasLabel(kept, b.cls) then kept else kept + [b]
  }

  /** Reference definition: the `j`-th incoming box is the first of its label
      in the file, and its label is not on the image. */
  predicate FirstFresh(existing: seq<Box>, incoming: seq<Box>, j: nat)
    requires j < |incoming|
  {
    && !HasLabel(existing, incoming[j].cls)
    && forall k :: 0 <= k < j ==> incoming[k].cls != incoming[j].cls
  }

  /** The first-fresh incoming boxes among the first `n`, in file order. */
  function FirstOccurrences(existing: seq<Box>, incoming: seq<Box>, n: nat): seq<Box>
    requires n <= |incoming|
  {
    if n == 0 then []
    else FirstOccurrences(existing, incoming, n - 1) +
         (if FirstFresh(existing, incoming, n - 1) then [incoming[n - 1]] else [])
  }

  lemma {:induction false} FirstOccurrencesLabels(existing: seq<Box>, incoming: seq<Box>, n: nat, l: string)
    requires n <= |incoming|
    ensures HasLabel(FirstOccurrences(existing, incoming, n), l) <==>
              !HasLabel(existing, l) && exists k :: 0 <= k < n && incoming[k].cls == l
  {
    if n > 0 {
      FirstOccurrencesLabels(existing, incoming, n - 1, l);
      var prev := FirstOccurrences(existing, incoming, n - 1);
      var cur := FirstOccurrences(existing, incoming, n);
      if HasLabel(cur, l) {
        var i :| 0 <= i < |cur| && cur[i].cls == l;
        if i >= |prev| {
          assert cur[i] == incoming[n - 1];
        } else {
          assert prev[i] == cur[i];
        }
      }
      if !HasLabel(existing, l) && exists k :: 0 <= k < n && incoming[k].cls == l {
        var k :| 0 <= k < n && incoming[k].cls == l;
        if k == n - 1 && !exists k' :: 0 <= k' < n - 1 && incoming[k'].cls == l {
          assert FirstFresh(existing, incoming, n - 1);
          assert cur[|prev|].cls == l;
        } else {
          var k' :| 0 <= k' < n - 1 && incoming[k'].cls == l;
          var i :| 0 <= i < |prev| && prev[i].cls == l;
          assert cur[i] == prev[i];
        }
      }
    }
  }

  /** The import keeps exactly the first occurrence of each label that is not
      already on the image, in file order. */
  lemma {:induction false} AcceptedIsFirstOccurrences(existing: seq<Box>, incoming: seq<Box>)
    ensures Accepted(existing, incoming) == FirstOccurrences(existing, incoming, |incoming|)
    decreases |incoming|
  {
    if incoming != [] {
      var n := |incoming|;
      var init := incoming[..n - 1];
      AcceptedIsFirstOccurrences(existing, init);
      FirstOccurrencesPrefixOf(existing, incoming, n - 1, n - 1);
      var b := incoming[n - 1];
      var prev := FirstOccurrences(existing, incoming, n - 1);
      assert Accepted(existing, init) == prev;
      assert Accepted(existing, incoming) ==
               if HasLabel(existing, b.cls) || HasLabel(prev, b.cls) then prev else prev + [b];
      FirstOccurrencesLabels(existing, incoming, n - 1, b.cls);
      assert FirstFresh(existing, incoming, n - 1) <==> !HasLabel(existing, b.cls) && !HasLabel(prev, b.cls);
    }
  }

  /** `FirstOccurrences` of a prefix only looks at that prefix. */
  lemma {:induction false} FirstOccurrencesPrefixOf(existing: seq<Box>, incoming: seq<Box>, m: nat, n: nat)
    requires m <= n <= |incoming|
    ensures FirstOccurrences(existing, incoming[..n], m) == FirstOccurrences(existing, incoming, m)
  {
    if m > 0 {
      FirstOccurrencesPrefixOf(existing, incoming, m - 1, n);
      assert FirstFresh(existing, incoming[..n], m - 1) == FirstFresh(existing, incoming, m - 1);
    }
  }

  /** Everything the import keeps comes from the file, in file order. */
  lemma {:induction false} AcceptedFromIncoming(existing: seq<Box>, incoming: seq<Box>)
    ensures |Accepted(existing, incoming)| <= |incoming|
    ensures forall b :: b in Accepted(existing, incoming) ==> b in incoming
    decreases |incoming|
  {
    if incoming != [] {
      AcceptedFromIncoming(existing, incoming[..|incoming| - 1]);
    }
  }

  /** Merging keeps the existing boxes as they are, puts the kept boxes after
      them, keeps the labels unique when they were, and loses no label:
      every incoming label not on the image ends up on it. */
  lemma {:induction false} MergeKeepsUnique(existing: seq<Box>, incoming: seq<Box>)
    requires UniqueLabels(existing)
    ensures var merged := existing + Accepted(existing, incoming);
      && merged[..|existing|] == existing
      && UniqueLabels(merged)
      && forall j :: 0 <= j < |incoming| ==> HasLabel(merged, incoming[j].cls)
    decreases |incoming|
  {
    var merged := existing + Accepted(existing, incoming);
    assert merged[..|existing|] == existing;
    if incoming != [] {
      var n := |incoming|;
      var init := incoming[..n - 1];
      MergeKeepsUnique(existing, init);
      var kept := Accepted(existing, init);
      var b := incoming[n - 1];
      var prev := existing + kept;
      if !(HasLabel(existing, b.cls) || HasLabel(kept, b.cls)) {
        assert merged == prev + [b];
        forall i, j | 0 <= i < j < |merged| ensures merged[i].cls != merged[j].cls {
          if j == |prev| {
            if i < |existing| {
              assert merged[i] == existing[i];
            } else {
              assert merged[i] == kept[i - |existing|];
            }
          } else {
            assert merged[i] == prev[i] && merged[j] == prev[j];
          }
        }
      } else {
        assert merged == prev;
      }
      forall j | 0 <= j < n ensures HasLabel(merged, incoming[j].cls) {
        if j < n - 1 {
          assert incoming[j] == init[j];
          var i :| 0 <= i < |prev| && prev[i].cls == incoming[j].cls;
          assert merged[i] == prev[i];
        } else if HasLabel(existing, b.cls) {
          var i :| 0 <= i < |existing| && existing[i].cls == b.cls;
          assert merged[i] == existing[i];
        } else if HasLabel(kept, b.cls) {
          var i :| 0 <= i < |kept| && kept[i].cls == b.cls;
          assert merged[|existing| + i] == kept[i];
        } else {
          assert merged[|prev|] == b;
        }
      }
    }
  }

  /** The labels of a box sequence. */
  function LabelSet(anns: seq<Box>): (s: set<string>)
    ensures forall l :: l in s <==> HasLabel(anns, l)
  {
    set i | 0 <= i < |anns| :: anns[i].cls
  }

  lemma LabelSetSnoc(anns: seq<Box>, b: Box)
    ensures LabelSet(anns + [b]) == LabelSet(anns) + {b.cls}
  {
    var s := anns + [b];
    forall l | l in LabelSet(anns) ensures HasLabel(s, l) {
      var i :| 0 <= i < |anns| && anns[i].cls == l;
      assert s[i] == anns[i];
    }
    assert s[|anns|] == b;
  }

  /** A wider set of known classes keeps an image's invariant. */
  lemma ImageInvariantWiden(anns: seq<Box>, known: set<string>, known': set<string>)
    requires ImageInvariant(anns, known) && known <= known'
    ensures ImageInvariant(anns, known')
  {
  }

  /** The `forEach` over the parsed boxes of one file: collects `validBoxes`
      and `labelsInThisXml`. */
  method MergeImported(existing: seq<Box>, incoming: seq<Box>) returns (valid: seq<Box>, labels: set<string>)
    ensures valid == Accepted(existing, incoming)
    ensures labels == LabelSet(valid)
  {
    valid := [];
    labels := {};
    for k := 0 to |incoming|
      invariant valid == Accepted(existing, incoming[..k])
      invariant labels == LabelSet(valid)
    {
      var box := incoming[k];
      assert incoming[..k + 1][..k] == incoming[..k];
      if HasLabel(existing, box.cls) {
        // the label is already on the image: skipped
      } else if box.cls in labels {
        // a second box of this label in the same file: the first one wins
      } else {
        LabelSetSnoc(valid, box);
        valid := valid + [box];
        labels := labels + {box.cls};
      }
    }
    assert incoming[..|incoming|] == incoming;
  }

  /** Merging into one image keeps its invariant once the kept labels are known. */
  lemma MergeKeepsImageInvariant(existing: seq<Box>, incoming: seq<Box>, known: set<string>)
    requires ImageInvariant(existing, known)
    ensures var valid := Accepted(existing, incoming);
      ImageInvariant(existing + valid, known + LabelSet(valid))
  {
    var valid := Accepted(existing, incoming);
    var known' := known + LabelSet(valid);
    MergeKeepsUnique(existing, incoming);
    var merged := existing + valid;
    forall i | 0 <= i < |merged| ensures merged[i].cls in known' {
      if i >= |existing| {
        assert merged[i] == valid[i - |existing|];
        assert HasLabel(valid, merged[i].cls);
      } else {
        assert merged[i] == existing[i];
      }
    }
  }

  /** The labels an import keeps are normal when all imported labels are. */
  lemma {:induction false} AcceptedLabelsNormal(existing: seq<Box>, incoming: seq<Box>)
    requires forall i :: 0 <= i < |incoming| ==> IsNormalLabel(incoming[i].cls)
    ensures forall c :: c in LabelSet(Accepted(existing, incoming)) ==> IsNormalLabel(c)
    decreases |incoming|
  {
    if incoming != [] {
      var init, b := incoming[..|incoming| - 1], incoming[|incoming| - 1];
      assert forall i :: 0 <= i < |init| ==> init[i] == incoming[i];
      AcceptedLabelsNormal(existing, init);
      LabelSetSnoc(Accepted(existing, init), b);
    }
  }

  /** An import keeps the store invariant once the kept labels, all normal, are
      added to the known classes. */
  lemma ImportKeepsInvariant(annotations: map<string, seq<Box>>, known: set<string>, target: string, incoming: seq<Box>)
    requires StoreInvariant(annotations, known)
    requires forall i :: 0 <= i < |incoming| ==> IsNormalLabel(incoming[i].cls)
    ensures var existing := if target in annotations then annotations[target] else [];
      var valid := Accepted(existing, incoming);
      StoreInvariant(annotations[target := existing + valid], known + LabelSet(valid))
  {
    var existing := if target in annotations then annotations[target] else [];
    var valid := Accepted(existing, incoming);
    var known' := known + LabelSet(valid);
    MergeKeepsImageInvariant(existing, incoming, known);
    AcceptedLabelsNormal(existing, incoming);
    var after := annotations[target := existing + valid];
    forall name | name in after ensures ImageInvariant(after[name], known') {
      if name != target {
        ImageInvariantWiden(annotations[name], known, known');
      }
    }
  }
}
