/** The annotator's session: the page's globals (the image list, the current
    image, the dimension cache, the annotation store, the known classes, the
    view, the draw switch, the selection and the mouse gesture) and the
    handlers that change them. Mouse positions arrive already converted to
    internal canvas units (CSS pixels times the device pixel ratio `dpr`). */
module Session {
  import opened Base
  import opened Viewport
  import opened Labels
  import opened Store
  import opened Interaction
  import opened Voc
  import opened Names

  /** `interactionState` without its cursor string: the gesture mode (Idle
      for `null`), the resize handle, the start and last mouse positions
      and whether a button is held. */
  datatype Gesture = Gesture(mode: Mode, handle: Option<Handle>, start: Option<Point>, last: Option<Point>, dragging: bool)

  const NO_GESTURE: Gesture := Gesture(Idle, None, None, None, false)

  /** `new Set(PREDEFINED_CLASSES)`. */
  function Predefined(): (s: set<string>)
    ensures forall c :: c in s <==> c in PREDEFINED_CLASSES
  {
    set c | c in PREDEFINED_CLASSES
  }

  // ----- import of annotation files -----

  /** What a parser yields for an annotation document: the text of its first
      `<filename>`, if any, and its `<object>` records. */
  datatype XmlDoc = XmlDoc(filename: Option<string>, objects: seq<VocObject>)

  /** A chosen annotation file: its name and its document, None when it could
      not be read or does not parse. */
  datatype XmlFile = XmlFile(name: string, doc: Option<XmlDoc>)

  /** The state `handleAnnotationFiles` accumulates: the store, the classes
      found (`newlyFoundClasses`), `loadedCount` and `errorCount`. */
  datatype ImportState = ImportState(anns: map<string, seq<Box>>, found: set<string>, loaded: nat, errors: nat)

  /** A file counts as loaded when it contributed a box or had no object at
      all (with no objects, neither duplicate flag can be set). */
  predicate Counted(incoming: seq<Box>, valid: seq<Box>) {
    |valid| > 0 || |incoming| == 0
  }

  /** One annotation file processed: non-XML names are skipped, unreadable
      files are errors, files whose image cannot be found are skipped, and
      the others are merged into their image. */
  function ImportFile(s: ImportState, f: XmlFile, images: seq<string>): ImportState {
    if !IsXmlName(f.name) then s
    else match f.doc
      case None => s.(errors := s.errors + 1)
      case Some(doc) =>
        match ResolveTarget(f.name, doc.filename, images)
        case None => s
        case Some(target) => MergeInto(s, target, ParseVoc(doc.objects))
  }

  /** The boxes `incoming` read for image `target` merged into the store. */
  function MergeInto(s: ImportState, target: string, incoming: seq<Box>): ImportState {
    var existing := if target in s.anns then s.anns[target] else [];
    var valid := Accepted(existing, incoming);
    ImportState(s.anns[target := existing + valid], s.found + LabelSet(valid),
                if Counted(incoming, valid) then s.loaded + 1 else s.loaded, s.errors)
  }

  lemma UnionAssoc(a: set<string>, b: set<string>, c: set<string>)
    ensures a + b + c == a + (b + c)
  {
  }

  /** Merging one file's boxes keeps the store invariant once the classes it
      found are known, and only adds classes. */
  lemma MergeIntoKeepsStoreInvariant(s: ImportState, target: string, incoming: seq<Box>, known: set<string>)
    requires StoreInvariant(s.anns, known + s.found)
    requires forall i :: 0 <= i < |incoming| ==> IsNormalLabel(incoming[i].cls)
    ensures var r := MergeInto(s, target, incoming); StoreInvariant(r.anns, known + r.found)
    ensures s.found <= MergeInto(s, target, incoming).found
  {
    var existing := if target in s.anns then s.anns[target] else [];
    var labels := LabelSet(Accepted(existing, incoming));
    ImportKeepsInvariant(s.anns, known + s.found, target, incoming);
    UnionAssoc(known, s.found, labels);
  }

  /** The body of the loop over the chosen files in `handleAnnotationFiles`. */
  method ImportOne(s: ImportState, f: XmlFile, images: seq<string>) returns (r: ImportState)
    ensures r == ImportFile(s, f, images)
  {
    r := s;
    if !IsXmlName(f.name) {
      return;
    }
    match f.doc {
      case None =>
        r := r.(errors := r.errors + 1);
      case Some(doc) =>
        var target := ResolveTarget(f.name, doc.filename, images);
        if target.Some? {
          var incoming := ParsePascalVoc(doc.objects);
          var existing := if target.value in s.anns then s.anns[target.value] else [];
          var valid, labels := MergeImported(existing, incoming);
          var loaded := s.loaded;
          if |valid| > 0 || |incoming| == 0 {
            loaded := loaded + 1;
          }
          r := ImportState(s.anns[target.value := existing + valid], s.found + labels, loaded, s.errors);
        }
    }
  }

  /** The files processed in list order. */
  function ImportFiles(s: ImportState, files: seq<XmlFile>, images: seq<string>): ImportState
    decreases |files|
  {
    if files == [] then s
    else ImportFile(ImportFiles(s, files[..|files| - 1], images), files[|files| - 1], images)
  }

  /** The loop over the chosen files in `handleAnnotationFiles`. */
  method ImportAll(s: ImportState, files: seq<XmlFile>, images: seq<string>) returns (r: ImportState)
    ensures r == ImportFiles(s, files, images)
  {
    r := s;
    for i := 0 to |files|
      invariant r == ImportFiles(s, files[..i], images)
    {
      assert files[..i + 1][..i] == files[..i];
      r := ImportOne(r, files[i], images);
    }
    assert files[..|files|] == files;
  }

  /** One file keeps the store invariant once the classes it found are
      known, and only adds classes. */
  lemma ImportFileKeepsStoreInvariant(s: ImportState, f: XmlFile, images: seq<string>, known: set<string>)
    requires StoreInvariant(s.anns, known + s.found)
    ensures var r := ImportFile(s, f, images); StoreInvariant(r.anns, known + r.found)
    ensures s.found <= ImportFile(s, f, images).found
  {
    if IsXmlName(f.name) && f.doc.Some? && ResolveTarget(f.name, f.doc.value.filename, images).Some? {
      var target := ResolveTarget(f.name, f.doc.value.filename, images).value;
      ParseVocWellFormed(f.doc.value.objects);
      MergeIntoKeepsStoreInvariant(s, target, ParseVoc(f.doc.value.objects), known);
    }
  }

  /** An import keeps the store invariant once the classes it found are
      known, and only adds classes. */
  lemma {:induction false} ImportKeepsStoreInvariant(s: ImportState, files: seq<XmlFile>, images: seq<string>, known: set<string>)
    requires StoreInvariant(s.anns, known + s.found)
    ensures var r := ImportFiles(s, files, images); StoreInvariant(r.anns, known + r.found)
    ensures s.found <= ImportFiles(s, files, images).found
    decreases |files|
  {
    if files != [] {
      ImportKeepsStoreInvariant(s, files[..|files| - 1], images, known);
      ImportFileKeepsStoreInvariant(ImportFiles(s, files[..|files| - 1], images), files[|files| - 1], images, known);
    }
  }

  /** An import only appends: every image keeps its boxes as a prefix, and
      boxes only go to images of the list. */
  lemma {:induction false} ImportKeepsExisting(s: ImportState, files: seq<XmlFile>, images: seq<string>)
    ensures var r := ImportFiles(s, files, images);
      && (forall name :: name in s.anns ==> name in r.anns && s.anns[name] <= r.anns[name])
      && (forall name :: name in r.anns && name !in s.anns ==> name in images)
    decreases |files|
  {
    if files != [] {
      ImportKeepsExisting(s, files[..|files| - 1], images);
    }
  }

  /** Each file is counted at most once, as loaded or as an error. */
  lemma {:induction false} ImportCounts(s: ImportState, files: seq<XmlFile>, images: seq<string>)
    ensures var r := ImportFiles(s, files, images);
      s.loaded <= r.loaded && s.errors <= r.errors && r.loaded + r.errors <= s.loaded + s.errors + |files|
    decreases |files|
  {
    if files != [] {
      ImportCounts(s, files[..|files| - 1], images);
    }
  }

  /** The label edit of box `i` of image `name` in the store, with `input`
      the prompt's answer: the outcome, and the store after it; the store
      invariant is kept. */
  method EditImage(annotations: map<string, seq<Box>>, known: set<string>, name: string, i: nat, input: Option<string>)
    returns (outcome: EditOutcome, updated: map<string, seq<Box>>)
    requires name in annotations && i < |annotations[name]| && StoreInvariant(annotations, known)
    ensures outcome == EditLabel(annotations[name], i, input, known)
    ensures updated == if outcome.Renamed? then annotations[name := AfterEdit(annotations[name], i, outcome)] else annotations
    ensures StoreInvariant(updated, known)
  {
    var anns := annotations[name];
    outcome := DecideEdit(anns, i, input, known);
    updated := annotations;
    if outcome.Renamed? {
      EditKeepsInvariant(anns, i, input, known);
      StoreUpdate(annotations, known, name, AfterEdit(anns, i, outcome));
      updated := annotations[name := AfterEdit(anns, i, outcome)];
    }
  }

  class Annotator {
    /** `imageFiles`, by name. */
    var images: seq<string>
    /** `currentImageIndex`, -1 before any image is opened. */
    var current: int
    /** `originalImage`, by its natural size; None while nothing is shown. */
    var image: Option<(nat, nat)>
    /** `imageDimensionsCache`. */
    var dims: map<string, Dims>
    var annotations: map<string, seq<Box>>
    /** `knownClasses`. */
    var known: set<string>
    /** `scale`, `panX`, `panY`. */
    var view: Transform
    /** `isDrawingEnabled`. */
    var drawing: bool
    /** `selectedAnnotationIndex`, into the current image's boxes. */
    var selected: Option<nat>
    var gesture: Gesture

    ghost predicate Valid()
      reads this
    {
      && -1 <= current < |images|
      && (current == -1 <==> images == [])
      && (image.Some? ==> 0 <= current)
      && (drawing ==> 0 <= current)
      && ValidScale(view)
      && StoreInvariant(annotations, known)
      && (selected.Some? ==> 0 <= current && images[current] in annotations
                             && selected.value < |annotations[images[current]]|)
      && (gesture.dragging ==> 0 <= current && gesture.start.Some? && gesture.last.Some?)
    }

    /** `imageFiles[currentImageIndex]?.name`. */
    function CurrentName(): (r: Option<string>)
      reads this
      ensures r.Some? <==> 0 <= current < |images|
    {
      if 0 <= current < |images| then Some(images[current]) else None
    }

    /** `annotations[currentFilename] || []`. */
    function CurrentBoxes(): seq<Box>
      reads this
    {
      if 0 <= current < |images| && images[current] in annotations then annotations[images[current]] else []
    }

    /** `imageDimensionsCache[currentFilename]`. */
    function CurrentDims(): Option<Dims>
      reads this
    {
      if 0 <= current < |images| && images[current] in dims then Some(dims[images[current]]) else None
    }

    /** The selected box, None when there is none. */
    function SelectedBox(): Option<Box>
      reads this
    {
      if selected.Some? && selected.value < |CurrentBoxes()| then Some(CurrentBoxes()[selected.value]) else None
    }

    /** The store with the selected box replaced by `b`. */
    function WithSelected(b: Box): map<string, seq<Box>>
      reads this
      requires SelectedBox().Some?
    {
      annotations[images[current] := CurrentBoxes()[selected.value := b]]
    }

    /** `getHandleAtCoords`: the handle of the selected box under canvas point `p`. */
    function SelectedHandle(p: Point, dpr: real): Option<Handle>
      reads this
    {
      if SelectedBox().Some? then HandleAt(view, SelectedBox().value, p, dpr) else None
    }

    /** The image list, the current image, the shown image and the dimension cache are unchanged. */
    twostate predicate SameFiles()
      reads this
    {
      images == old(images) && current == old(current) && image == old(image) && dims == old(dims)
    }

    /** The store and the known classes are unchanged. */
    twostate predicate SameStore()
      reads this
    {
      annotations == old(annotations) && known == old(known)
    }

    constructor()
      ensures Valid()
      ensures images == [] && current == -1 && image.None? && dims == map[] && annotations == map[]
      ensures known == Predefined() && view == Transform(1.0, 0.0, 0.0)
      ensures !drawing && selected.None? && gesture == NO_GESTURE
    {
      images := [];
      current := -1;
      image := None;
      dims := map[];
      annotations := map[];
      known := Predefined();
      view := Transform(1.0, 0.0, 0.0);
      drawing := false;
      selected := None;
      gesture := NO_GESTURE;
      PredefinedAreNormal();
    }

    // ----- images -----

    /** `loadImage(index)` up to the asynchronous read: an index out of range
        changes nothing; otherwise the shown image and the selection are
        cleared and the file `reading` is read. */
    method LoadImage(index: int) returns (reading: Option<string>)
      requires Valid()
      modifies this
      ensures Valid()
      ensures !(0 <= index < |old(images)|) ==> unchanged(this) && reading.None?
      ensures 0 <= index < |old(images)| ==>
                && images == old(images) && current == old(current) && dims == old(dims) && SameStore()
                && image.None? && selected.None? && reading == Some(old(images)[index])
                && view == old(view) && drawing == old(drawing) && gesture == old(gesture)
    {
      if index < 0 || index >= |images| {
        return None;
      }
      image := None;
      selected := None;
      reading := Some(images[index]);
    }

    /** The `onload` of the image read for position `index` (file `name`,
        natural size `w` by `h`, container `cw` by `ch`): ignored unless
        `index` is still the current position; otherwise the image is shown,
        its size cached, the view reset and fitted. */
    method ImageLoaded(index: int, name: string, w: nat, h: nat, cw: int, ch: int)
      requires Valid() && 0 <= index
      modifies this
      ensures Valid()
      ensures index != old(current) ==> unchanged(this)
      ensures index == old(current) ==>
                && image == Some((w, h)) && dims == old(dims)[name := Dims(w, h)]
                && view == Fit(Transform(1.0, 0.0, 0.0), Some((w, h)), cw, ch)
                && gesture == old(gesture).(mode := Idle, dragging := false, start := None, last := None)
                && images == old(images) && current == old(current) && SameStore()
                && drawing == old(drawing) && selected == old(selected)
    {
      if index != current {
        return;
      }
      image := Some((w, h));
      dims := dims[name := Dims(w, h)];
      view := Transform(1.0, 0.0, 0.0);
      gesture := gesture.(mode := Idle, dragging := false, start := None, last := None);
      view := Fit(view, image, cw, ch);
    }

    /** The `onerror` of an image read: nothing is shown (there is no check
        of the position here). */
    method ImageLoadFailed()
      requires Valid()
      modifies this
      ensures Valid()
      ensures image.None?
      ensures images == old(images) && current == old(current) && dims == old(dims) && SameStore()
      ensures view == old(view) && drawing == old(drawing) && selected == old(selected) && gesture == old(gesture)
    {
      image := None;
    }

    /** `handleImageFiles` in open mode, `names` being the chosen files in
        sorted order: an empty choice changes nothing; otherwise the list is
        replaced, the store, the cache and the classes are reset and the
        first image is loaded. */
    method OpenImages(names: seq<string>) returns (reading: Option<string>)
      requires Valid()
      modifies this
      ensures Valid()
      ensures names == [] ==> unchanged(this) && reading.None?
      ensures names != [] ==>
                && images == names && current == 0 && image.None? && dims == map[]
                && annotations == map[] && known == Predefined() && selected.None?
                && view == old(view) && drawing == old(drawing) && gesture == old(gesture)
                && reading == Some(names[0])
    {
      if names == [] {
        return None;
      }
      images := names;
      annotations := map[];
      dims := map[];
      known := Predefined();
      PredefinedAreNormal();
      current := 0;
      selected := None;
      reading := LoadImage(current);
    }

    /** `prevImage`: moves back one position unless at the first. */
    method PrevImage() returns (reading: Option<string>)
      requires Valid()
      modifies this
      ensures Valid()
      ensures old(current) <= 0 ==> unchanged(this) && reading.None?
      ensures old(current) > 0 ==>
                && current == old(current) - 1 && image.None? && selected.None? && reading == Some(images[current])
                && images == old(images) && dims == old(dims) && SameStore()
                && view == old(view) && drawing == old(drawing) && gesture == old(gesture)
    {
      if current > 0 {
        selected := None;
        current := current - 1;
        reading := LoadImage(current);
      } else {
        reading := None;
      }
    }

    /** `nextImage`: moves on one position unless at the last. */
    method NextImage() returns (reading: Option<string>)
      requires Valid()
      modifies this
      ensures Valid()
      ensures old(current) >= |old(images)| - 1 ==> unchanged(this) && reading.None?
      ensures old(current) < |old(images)| - 1 ==>
                && current == old(current) + 1 && image.None? && selected.None? && reading == Some(images[current])
                && images == old(images) && dims == old(dims) && SameStore()
                && view == old(view) && drawing == old(drawing) && gesture == old(gesture)
    {
      if current < |images| - 1 {
        selected := None;
        current := current + 1;
        reading := LoadImage(current);
      } else {
        reading := None;
      }
    }

    // ----- view -----

    /** `zoom(factor, pivotX, pivotY)` with the pivot in CSS pixels. */
    method Zoom(factor: real, pivot: Point, dpr: real)
      requires Valid()
      modifies this
      ensures Valid()
      ensures view == Viewport.Zoom(old(view), old(image).Some?, factor, pivot, dpr)
      ensures SameFiles() && SameStore() && drawing == old(drawing) && selected == old(selected) && gesture == old(gesture)
    {
      view := Viewport.Zoom(view, image.Some?, factor, pivot, dpr);
    }

    /** `zoomIn` and `zoomOut`: a zoom step about the centre of the container
        of `cw` by `ch` CSS pixels. */
    method ZoomIn(cw: real, ch: real, dpr: real)
      requires Valid()
      modifies this
      ensures Valid()
      ensures view == Viewport.Zoom(old(view), old(image).Some?, ZOOM_STEP, Point(cw / 2.0, ch / 2.0), dpr)
      ensures SameFiles() && SameStore() && drawing == old(drawing) && selected == old(selected) && gesture == old(gesture)
    {
      Zoom(ZOOM_STEP, Point(cw / 2.0, ch / 2.0), dpr);
    }

    method ZoomOut(cw: real, ch: real, dpr: real)
      requires Valid()
      modifies this
      ensures Valid()
      ensures view == Viewport.Zoom(old(view), old(image).Some?, 1.0 / ZOOM_STEP, Point(cw / 2.0, ch / 2.0), dpr)
      ensures SameFiles() && SameStore() && drawing == old(drawing) && selected == old(selected) && gesture == old(gesture)
    {
      Zoom(1.0 / ZOOM_STEP, Point(cw / 2.0, ch / 2.0), dpr);
    }

    /** `onWheelZoom`: zooms out for a positive `deltaY`, in otherwise, about
        the mouse at CSS offset `mouse`. */
    method WheelZoom(deltaY: real, mouse: Point, dpr: real)
      requires Valid()
      modifies this
      ensures Valid()
      ensures old(image).None? ==> unchanged(this)
      ensures view == Viewport.Zoom(old(view), old(image).Some?, WheelFactor(deltaY), mouse, dpr)
      ensures SameFiles() && SameStore() && drawing == old(drawing) && selected == old(selected) && gesture == old(gesture)
    {
      if image.None? {
        return;
      }
      Zoom(WheelFactor(deltaY), mouse, dpr);
    }

    /** `handleWindowResize` with an image shown: fits it again into the
        container of `cw` by `ch` CSS pixels. */
    method WindowResized(cw: int, ch: int)
      requires Valid()
      modifies this
      ensures Valid()
      ensures old(image).None? ==> unchanged(this)
      ensures view == Fit(old(view), old(image), cw, ch)
      ensures SameFiles() && SameStore() && drawing == old(drawing) && selected == old(selected) && gesture == old(gesture)
    {
      if image.Some? {
        view := Fit(view, image, cw, ch);
      }
    }

    // ----- mouse -----

    /** `onMouseDown` at canvas point `p`: ignored without an image or for a
        button other than the main one; otherwise a drag starts at `p` and
        the dispatch decides the mode and the selection. */
    method MouseDown(p: Point, button: int, dpr: real)
      requires Valid()
      modifies this
      ensures Valid()
      ensures old(image).None? || button != 0 ==> unchanged(this)
      ensures old(image).Some? && button == 0 ==>
                var r := PressOutcome(old(SelectedHandle(p, dpr)), old(selected),
                                      TopmostHit(old(view), old(CurrentBoxes()), p), old(drawing));
                && selected == r.selected
                && gesture == Gesture(r.mode, if r.mode == Resize then r.handle else old(gesture.handle), Some(p), Some(p), true)
                && SameFiles() && SameStore() && view == old(view) && drawing == old(drawing)
    {
      if image.None? || button != 0 {
        return;
      }
      var handle := SelectedHandle(p, dpr);
      var hit := AnnotationAt(view, CurrentBoxes(), p);
      var r := PressOutcome(handle, selected, hit, drawing);
      selected := r.selected;
      gesture := Gesture(r.mode, if r.mode == Resize then r.handle else gesture.handle, Some(p), Some(p), true);
    }

    /** `resizeAnnotation`: the dragged corner of the selected box follows
        the mouse at canvas point `p`. */
    method ResizeAnnotation(p: Point)
      requires Valid()
      modifies this
      ensures Valid()
      ensures old(SelectedBox()).Some? && old(gesture.handle).Some? ==>
                annotations == old(WithSelected(Resized(SelectedBox().value, gesture.handle.value, CanvasToImage(view, p))))
      ensures !(old(SelectedBox()).Some? && old(gesture.handle).Some?) ==> annotations == old(annotations)
      ensures SameFiles() && known == old(known) && view == old(view) && drawing == old(drawing)
      ensures selected == old(selected) && gesture == old(gesture)
    {
      if selected.None? || gesture.handle.None? {
        return;
      }
      var name, i := images[current], selected.value;
      var l := annotations[name];
      var moved := Resized(l[i], gesture.handle.value, CanvasToImage(view, p));
      ReplaceKeepsInvariant(l, i, moved, known);
      StoreUpdate(annotations, known, name, l[i := moved]);
      annotations := annotations[name := l[i := moved]];
    }

    /** `moveAnnotation`: the selected box is shifted by the image-space
        delta of the mouse step from `last` to `p`. */
    method MoveAnnotation(last: Point, p: Point)
      requires Valid()
      modifies this
      ensures Valid()
      ensures old(SelectedBox()).Some? ==>
                annotations == old(WithSelected(Translated(SelectedBox().value, ImageDelta(view, last, p))))
      ensures old(SelectedBox()).None? ==> annotations == old(annotations)
      ensures SameFiles() && known == old(known) && view == old(view) && drawing == old(drawing)
      ensures selected == old(selected) && gesture == old(gesture)
    {
      if selected.None? {
        return;
      }
      var name, i := images[current], selected.value;
      var l := annotations[name];
      var moved := Translated(l[i], ImageDelta(view, last, p));
      ReplaceKeepsInvariant(l, i, moved, known);
      StoreUpdate(annotations, known, name, l[i := moved]);
      annotations := annotations[name := l[i := moved]];
    }

    /** `onMouseMove` to canvas point `p` during a drag: a draw tracks the
        mouse, a resize drags the corner, a selection becomes a move once
        the mouse leaves the drag threshold, a move shifts the box and a
        pan shifts the view by the raw delta. */
    method MouseMove(p: Point, dpr: real)
      requires Valid()
      modifies this
      ensures Valid()
      ensures !old(gesture.dragging) || old(image).None? ==> unchanged(this)
      ensures old(gesture.dragging) && old(image).Some? ==>
                var g, last := old(gesture), old(gesture.last.value);
                var promoted := g.mode == Select && Promotes(g.start.value, p, dpr);
                && gesture == g.(mode := if promoted then Move else g.mode, last := Some(p))
                && (g.mode == Pan ==> view == old(view).(panX := old(view.panX) + (p.x - last.x),
                                                        panY := old(view.panY) + (p.y - last.y)))
                && (g.mode != Pan ==> view == old(view))
                && (g.mode == Resize && old(SelectedBox()).Some? && g.handle.Some? ==>
                      annotations == old(WithSelected(Resized(SelectedBox().value, gesture.handle.value, CanvasToImage(view, p)))))
                && ((g.mode == Move || promoted) && old(SelectedBox()).Some? ==>
                      annotations == old(WithSelected(Translated(SelectedBox().value, ImageDelta(view, gesture.last.value, p)))))
                && (g.mode != Resize && g.mode != Move && !promoted ==> annotations == old(annotations))
                && (g.mode == Resize && !(old(SelectedBox()).Some? && g.handle.Some?) ==> annotations == old(annotations))
                && ((g.mode == Move || promoted) && old(SelectedBox()).None? ==> annotations == old(annotations))
                && SameFiles() && known == old(known) && drawing == old(drawing) && selected == old(selected)
    {
      if !gesture.dragging || image.None? {
        return;
      }
      var last := gesture.last.value;
      match gesture.mode {
        case Draw =>
        case Resize =>
          ResizeAnnotation(p);
        case Select =>
          if Promotes(gesture.start.value, p, dpr) {
            gesture := gesture.(mode := Move);
            MoveAnnotation(last, p);
          }
        case Move =>
          MoveAnnotation(last, p);
        case Pan =>
          view := view.(panX := view.panX + (p.x - last.x), panY := view.panY + (p.y - last.y));
        case Idle =>
      }
      gesture := gesture.(last := Some(p));
    }

    /** A drawn box ending at canvas point `p` is committed: on success it
        is appended to the current image's boxes (see `DrawKeepsInvariant`)
        and selected; otherwise the store and the selection are unchanged. */
    twostate predicate DrawCommitted(p: Point, dpr: real, chosen: Option<string>)
      requires dpr > 0.0
      reads this
    {
      old(gesture.start).Some? && old(CurrentName()).Some? ==>
        var r := old(CommitDraw(view, gesture.start.value, p, dpr, chosen, CurrentBoxes(), CurrentDims()));
        && annotations == (if r.Added? then old(annotations)[old(CurrentName().value) := AfterDraw(old(CurrentBoxes()), r)]
                           else old(annotations))
        && selected == (if r.Added? then Some(|old(CurrentBoxes())|) else old(selected))
    }

    /** The resized box is normalised and clamped in place, unless that
        leaves no area, in which case it stays as dragged. */
    twostate predicate ResizeCommitted()
      reads this
    {
      && selected == old(selected)
      && annotations == (if old(SelectedBox()).Some? && old(CommitResize(SelectedBox().value, CurrentDims())).Some?
                         then old(WithSelected(CommitResize(SelectedBox().value, CurrentDims()).value))
                         else old(annotations))
    }

    /** The moved box is shifted back inside the image when its size is known. */
    twostate predicate MoveCommitted()
      reads this
    {
      && selected == old(selected)
      && annotations == (if old(SelectedBox()).Some? && old(CurrentDims()).Some?
                         then old(WithSelected(CommitMove(SelectedBox().value, CurrentDims())))
                         else old(annotations))
    }

    /** What a mouse-up at canvas point `p` leaves: the gesture is over, and
        a draw, resize or move is committed to the store. */
    twostate predicate Released(p: Point, dpr: real, chosen: Option<string>)
      requires dpr > 0.0
      reads this
    {
      && gesture == NO_GESTURE
      && SameFiles() && known == old(known) && view == old(view) && drawing == old(drawing)
      && (old(gesture.mode) == Draw ==> DrawCommitted(p, dpr, chosen))
      && (old(gesture.mode) == Resize ==> ResizeCommitted())
      && (old(gesture.mode) == Move ==> MoveCommitted())
      && (old(gesture.mode) == Idle || old(gesture.mode) == Select || old(gesture.mode) == Pan ==>
            annotations == old(annotations) && selected == old(selected))
    }

    /** The draw branch of `onMouseUp`. */
    method FinishDraw(p: Point, dpr: real, chosen: Option<string>)
      requires Valid() && dpr > 0.0 && gesture.start.Some? && 0 <= current
      requires chosen.Some? ==> chosen.value in known
      modifies this
      ensures Valid()
      ensures DrawCommitted(p, dpr, chosen)
      ensures SameFiles() && known == old(known) && view == old(view) && drawing == old(drawing) && gesture == old(gesture)
    {
      var name := images[current];
      var existing := CurrentBoxes();
      var r := CommitDraw(view, gesture.start.value, p, dpr, chosen, existing, CurrentDims());
      DrawKeepsInvariant(view, gesture.start.value, p, dpr, chosen, existing, CurrentDims(), known);
      if r.Added? {
        StoreUpdate(annotations, known, name, AfterDraw(existing, r));
        annotations := annotations[name := AfterDraw(existing, r)];
        selected := Some(|existing|);
      }
    }

    /** The resize branch of `onMouseUp`. */
    method FinishResize()
      requires Valid()
      modifies this
      ensures Valid()
      ensures ResizeCommitted()
      ensures SameFiles() && known == old(known) && view == old(view) && drawing == old(drawing) && gesture == old(gesture)
    {
      if selected.Some? {
        var name, i := images[current], selected.value;
        var l := annotations[name];
        var fixed := CommitResize(l[i], CurrentDims());
        if fixed.Some? {
          ReplaceKeepsInvariant(l, i, fixed.value, known);
          StoreUpdate(annotations, known, name, l[i := fixed.value]);
          annotations := annotations[name := l[i := fixed.value]];
        }
      }
    }

    /** The move branch of `onMouseUp`. */
    method FinishMove()
      requires Valid()
      modifies this
      ensures Valid()
      ensures MoveCommitted()
      ensures SameFiles() && known == old(known) && view == old(view) && drawing == old(drawing) && gesture == old(gesture)
    {
      var d := CurrentDims();
      if selected.Some? && d.Some? {
        var name, i := images[current], selected.value;
        var l := annotations[name];
        var fixed := CommitMove(l[i], d);
        ReplaceKeepsInvariant(l, i, fixed, known);
        StoreUpdate(annotations, known, name, l[i := fixed]);
        annotations := annotations[name := l[i := fixed]];
      }
    }

    /** `onMouseUp` at canvas point `p`, with `chosen` the class selected in
        the class list (None when no usable option is selected). */
    method MouseUp(p: Point, button: int, dpr: real, chosen: Option<string>)
      requires Valid() && dpr > 0.0
      requires chosen.Some? ==> chosen.value in known
      modifies this
      ensures Valid()
      ensures !old(gesture.dragging) || button != 0 ==> unchanged(this)
      ensures old(gesture.dragging) && button == 0 ==> Released(p, dpr, chosen)
    {
      if !gesture.dragging || button != 0 {
        return;
      }
      match gesture.mode {
        case Draw => FinishDraw(p, dpr, chosen);
        case Resize => FinishResize();
        case Move => FinishMove();
        case Select =>
        case Pan =>
        case Idle =>
      }
      gesture := NO_GESTURE;
    }

    /** `onMouseLeave`: leaving the canvas during a drag ends it as a mouse-up would. */
    method MouseLeave(p: Point, button: int, dpr: real, chosen: Option<string>)
      requires Valid() && dpr > 0.0
      requires chosen.Some? ==> chosen.value in known
      modifies this
      ensures Valid()
      ensures !old(gesture.dragging) || button != 0 ==> unchanged(this)
      ensures old(gesture.dragging) && button == 0 ==> Released(p, dpr, chosen)
    {
      if gesture.dragging {
        MouseUp(p, button, dpr, chosen);
      }
    }

    /** The selected box's label after the prompt returned `input`: renamed
        when the edit is accepted, otherwise the store is unchanged. */
    twostate predicate LabelEdited(input: Option<string>)
      reads this
    {
      var anns, sel := old(CurrentBoxes()), old(selected);
      sel.Some? && sel.value < |anns| && old(CurrentName()).Some? ==>
        var r := EditLabel(anns, sel.value, input, old(known));
        annotations == (if r.Renamed? then old(annotations)[old(CurrentName().value) := AfterEdit(anns, sel.value, r)]
                        else old(annotations))
    }

    /** The label edit of the selected box with `input` the prompt's answer. */
    method EditSelected(input: Option<string>)
      requires Valid() && selected.Some?
      modifies this
      ensures Valid()
      ensures LabelEdited(input)
      ensures SameFiles() && known == old(known) && view == old(view) && drawing == old(drawing)
      ensures selected == old(selected) && gesture == old(gesture)
    {
      var name, i := images[current], selected.value;
      assert old(CurrentBoxes()) == annotations[name] && old(selected) == Some(i) && old(CurrentName()) == Some(name);
      var outcome, updated := EditImage(annotations, known, name, i, input);
      annotations := updated;
    }

    /** `onDoubleClick` at canvas point `p`, with `input` what the prompt
        returned: when the topmost box under the mouse is the selected one,
        its label is edited. */
    method DoubleClick(p: Point, button: int, input: Option<string>)
      requires Valid()
      modifies this
      ensures Valid()
      ensures var hit := old(image).Some? && button == 0 && old(selected).Some?
                         && TopmostHit(old(view), old(CurrentBoxes()), p) == old(selected);
        (hit ==> LabelEdited(input)) && (!hit ==> annotations == old(annotations))
      ensures SameFiles() && known == old(known) && view == old(view) && drawing == old(drawing)
      ensures selected == old(selected) && gesture == old(gesture)
    {
      if image.None? || button != 0 || selected.None? {
        return;
      }
      var hit := AnnotationAt(view, CurrentBoxes(), p);
      if hit == selected {
        EditSelected(input);
      }
    }

    /** `deleteSelectedAnnotation`: removes the selected box and clears the
        selection; without a selection nothing changes. */
    method DeleteSelected()
      requires Valid()
      modifies this
      ensures Valid()
      ensures old(selected).None? ==> unchanged(this)
      ensures old(selected).Some? ==> annotations == old(annotations)[old(CurrentName().value) := Splice(old(CurrentBoxes()), old(selected.value))]
      ensures old(selected).Some? ==> selected.None?
      ensures SameFiles() && known == old(known) && view == old(view) && drawing == old(drawing) && gesture == old(gesture)
    {
      if selected.Some? && CurrentName().Some? && CurrentName().value in annotations {
        var name := images[current];
        SpliceKeepsInvariant(annotations[name], selected.value, known);
        StoreUpdate(annotations, known, name, Splice(annotations[name], selected.value));
        annotations := annotations[name := Splice(annotations[name], selected.value)];
        selected := None;
      }
    }

    /** `toggleDrawMode`: flips draw mode, clears the selection and the
        gesture mode (the drag itself is left as it is); nothing happens
        before an image is opened. */
    method ToggleDrawMode()
      requires Valid()
      modifies this
      ensures Valid()
      ensures old(current) == -1 ==> unchanged(this)
      ensures old(current) != -1 ==>
                && drawing == !old(drawing) && selected.None? && gesture == old(gesture).(mode := Idle)
                && SameFiles() && SameStore() && view == old(view)
    {
      if current == -1 {
        return;
      }
      drawing := !drawing;
      selected := None;
      gesture := gesture.(mode := Idle);
    }

    /** The Escape key: cancels a draw drag (the resize handle is left as it
        is), else clears the selection, else leaves draw mode. */
    method KeyEscape()
      requires Valid()
      modifies this
      ensures Valid()
      ensures var a := EscapeOutcome(old(gesture.dragging) && old(gesture.mode) == Draw, old(selected), old(drawing));
        && (a == CancelDraw ==>
              gesture == old(gesture).(mode := Idle, dragging := false, start := None, last := None)
              && selected == old(selected) && drawing == old(drawing))
        && (a == Deselect ==> selected.None? && gesture == old(gesture) && drawing == old(drawing))
        && (a == LeaveDrawMode ==> !drawing && selected.None? && gesture == old(gesture).(mode := Idle))
        && (a == Ignore ==> unchanged(this))
      ensures SameFiles() && SameStore() && view == old(view)
    {
      var a := EscapeOutcome(gesture.dragging && gesture.mode == Draw, selected, drawing);
      match a
      case CancelDraw =>
        gesture := gesture.(mode := Idle, dragging := false, start := None, last := None);
      case Deselect =>
        selected := None;
      case LeaveDrawMode =>
        ToggleDrawMode();
      case Ignore =>
    }

    // ----- import -----

    /** `handleAnnotationFiles`: nothing happens without files or without
        images; otherwise the files are merged into the store in list order
        and the classes found are added to the known classes at the end. */
    method ImportAnnotations(files: seq<XmlFile>) returns (loaded: nat, errors: nat)
      requires Valid()
      modifies this
      ensures Valid()
      ensures files == [] || old(images) == [] ==> unchanged(this) && loaded == 0 && errors == 0
      ensures files != [] && old(images) != [] ==>
                var r := ImportFiles(ImportState(old(annotations), {}, 0, 0), files, old(images));
                annotations == r.anns && known == old(known) + r.found && loaded == r.loaded && errors == r.errors
      ensures SameFiles() && view == old(view) && drawing == old(drawing)
      ensures selected == old(selected) && gesture == old(gesture)
    {
      if files == [] || images == [] {
        return 0, 0;
      }
      var start := ImportState(annotations, {}, 0, 0);
      assert known + start.found == known;
      ImportKeepsStoreInvariant(start, files, images, known);
      ImportKeepsExisting(start, files, images);
      var st := ImportAll(start, files, images);
      annotations := st.anns;
      known := known + st.found;
      loaded, errors := st.loaded, st.errors;
    }
  }
}
