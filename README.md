# Bounding-box annotator: a verified model

This project models the core of `script.js`, a single-page image annotator. The user opens images, draws one rectangle per class on each, and moves, resizes, relabels and deletes boxes with the mouse and keyboard. The annotations can be exported as YOLO lines and Pascal VOC XML and imported back from VOC files. The model covers five pieces:

- **Viewport** (`viewport.dfy`): the mapping between internal canvas coordinates and image pixels (`scale`, `panX`, `panY`), pivot-preserving clamped zoom, and fit-to-container.
- **Annotation store** (`store.dfy`, `labels.dfy`): per image, a list of boxes with at most one box per class, plus the set of known classes. It covers:
  - the draw commit: normalise, clamp, reject;
  - the label edit, with `trim().toLowerCase()` normalisation;
  - delete by `splice`;
  - the import merge, where the first occurrence wins.
- **Mouse state machine** (`interaction.dfy`, `session.dfy`): the annotator's globals as the class `Session.Annotator`, and the handlers as methods that update its fields:
  - mouse down, move, up and leave;
  - double click, delete, the draw-mode toggle, the Escape chain;
  - next and previous image, loading an image, zoom, wheel, window resize, import.

  It also holds the hit tests and the geometry of the resize and move drags and their commits.
- **Codecs** (`yolo.dfy`, `voc.dfy`, `decimal.dfy`): `formatYoloLine` over the sorted class list, `escapeXml`, `createPascalVocXml` as the string it builds, and `parsePascalVoc` over parsed `<object>` records. Round trips connect the writer and the reader.
- **Name helpers** (`names.dfy`): the base-name regex `/\.[^/.]+$/`, the import target resolution, the crop file names and rectangles, and the crop format and MIME type.

`base.dfy` holds the `Option` type and `Math.min`, `max`, `abs` and `round` on reals.

Numbers are Dafny `real`s throughout, so the linear maps of the viewport are exact. `Math.round(x)` is `floor(x + 1/2)`. The device pixel ratio is a positive real parameter, and mouse positions arrive already in internal canvas units.

The text the handlers get from the browser is passed in as parameters:
- the class list selection: `chosen`, None when no usable option is selected;
- the prompt answer: `input`, None when dismissed;
- the container size, and the natural size of a decoded image.

In these places the model follows the code as written, including where its comments suggest another intent (script.js:741):
- **Resize commit is never reverted.** The drag writes the dragged corner into the box in place (script.js:927-930). The commit only overwrites the box when the normalised, clamped result has area (script.js:737-744). Otherwise the box keeps the corners the drag left, so it is not restored to its previous geometry. In the same way, a box dragged past its opposite corner is normalised and kept, not discarded. `Interaction.FlippedResizeIsNormalised` states this for the north-west handle, and `Interaction.ResizeCommitSpansOpposite` states it for every handle.
- **Move commit never discards.** It clamps the top-left corner and keeps the size (script.js:756-764), and clamps only when the image size is cached. Draw also clamps only when the image size is cached (script.js:699).
- **The stale-load guard compares only the list position** (script.js:220), not the file. `Session.Annotator.ImageLoaded` therefore takes the file name separately from the position.
- **Classes found on import are added to the known classes once, after all files** (script.js:1498). They are not added box by box. Each file's merge only looks at the boxes already on the image, so the result is the same.

## Model

| member | source | states |
|---|---|---|
| Base.Min | script.js:693-696 | `Math.min`: the result is at most both arguments and is one of them |
| Base.Max | script.js:693-696 | `Math.max`: the result is at least both arguments and is one of them |
| Base.Abs | script.js:671-672 | `Math.abs`: non-negative, and equal to `x` or `-x` |
| Base.Clamp | script.js:349 | `max(lo, min(hi, x))` lies in `[lo, hi]`, is `x` inside the range and the nearer end outside it |
| Base.Round | script.js:1190-1193 | `Math.round(x)` is the integer `r` with `r - 1/2 <= x < r + 1/2` (halves round up) |
| Base.RoundInt | script.js:1190-1193 | rounding an integer gives it back |
| Decimal.NatToString | script.js:1208-1211 | the numeral of a natural is non-empty and all digits, with no leading zero except for `0` |
| Decimal.IntToString | script.js:1208-1211 | `${n}` of an integer: digits, with a leading `-` exactly for negative `n` |
| Decimal.ParseInt | script.js:1517 | a number is read only from non-empty text |
| Decimal.ParseNatToString | script.js:1517 | reading back the numeral of a natural gives the natural |
| Decimal.IntToStringRoundTrip | script.js:1517 | reading back `${n}` gives `n` for every integer |
| Decimal.NatToStringInjective | script.js:1391 | different naturals have different numerals |
| Viewport.CanvasRoundTrip | script.js:393-404 | for a non-zero scale, canvas to image to canvas is the identity |
| Viewport.ImageRoundTrip | script.js:393-404 | for a non-zero scale, image to canvas to image is the identity |
| Viewport.CanvasToImage | script.js:393-398 | `canvasToImageCoords`: subtract the pan and divide by the scale, `(0, 0)` for a zero scale. Its contract is the pair of round trips `CanvasRoundTrip` and `ImageRoundTrip` |
| Viewport.ImageToCanvas | script.js:400-404 | `imageToCanvasCoords`: multiply by the scale and add the pan. It is the inverse of `CanvasToImage` by `CanvasRoundTrip` and `ImageRoundTrip` |
| Viewport.ZoomTarget | script.js:349 | the requested scale `scale * factor`, clamped into `[0.1, 10]` |
| Viewport.Zoom | script.js:347-366 | the transform stays in the zoom range. Without an image, or when the clamped scale moves by less than 1e-6, nothing changes. Otherwise the scale is the clamped target, and the image point under the pivot (CSS pixels times `dpr`) stays under it |
| Viewport.WheelFactor | script.js:380-391 | the wheel zooms by `ZOOM_STEP` or its inverse, and zooms out exactly when `deltaY > 0` |
| Viewport.Fit | script.js:287-312 | nothing changes without an image, for an image with a zero side, or for a container side `<= 0`. Otherwise the scale is `min(cw/w, ch/h)` clamped to the zoom range, and the image is centred on both axes |
| Viewport.FitInside | script.js:300-308 | when the fitting scale is inside the zoom range, the image lies inside the container and is flush with it on at least one axis |
| Labels.TrimStart | script.js:810 | the result is a suffix of the text; only whitespace was removed, and it does not start with whitespace |
| Labels.TrimEnd | script.js:810 | the result is a prefix of the text; only whitespace was removed, and it does not end with whitespace |
| Labels.IsWhitespace | script.js:810 | the characters `trim()` removes: ECMAScript WhiteSpace and LineTerminator |
| Labels.Trim | script.js:810 | `trim()` is no longer than the text and has no whitespace at either end |
| Labels.TrimRemovesWhitespace | script.js:810 | `trim()` is a slice of the text with only whitespace before it and after it |
| Labels.LowerChar | script.js:810 | lower-casing a character keeps it whitespace exactly when it was whitespace |
| Labels.ToLower | script.js:810 | `toLowerCase()` lower-cases each character and keeps the length |
| Labels.Normalize | script.js:810 | `trim().toLowerCase()`. `NormalizeIdempotent`, `NormalizedIsNormal` and `NormalLabelMeans` state its properties |
| Labels.IsNormalLabel | script.js:810-815 | a storable label: non-empty, no whitespace at either end, and unchanged by lower-casing. `NormalLabelMeans` proves these are the fixed points of `Normalize` |
| Labels.LowerCharIdempotent | script.js:810 | lower-casing a character twice is lower-casing it once |
| Labels.NormalizeIdempotent | script.js:810 | `trim().toLowerCase()` applied twice is applied once |
| Labels.TrimUntouched | script.js:810 | a text without outer whitespace is its own trim |
| Labels.NormalizedIsNormal | script.js:810-815 | a non-empty normalised text is a storable label |
| Labels.NormalLabelMeans | script.js:1513 | the storable labels are exactly the non-empty texts that normalisation leaves unchanged |
| Labels.PredefinedAreNormal | script.js:11 | the five predefined classes are storable labels |
| Labels.StrLessIrreflexive | script.js:1232 | the string order of `sort()` is irreflexive |
| Labels.StrLessTransitive | script.js:1232 | the string order is transitive |
| Labels.StrLessTotal | script.js:1232 | any two different strings are ordered one way or the other |
| Labels.StrLessAsymmetric | script.js:1232 | the string order is asymmetric |
| Labels.StrLess | script.js:1232 | the default `sort()` order: character by character, a proper prefix first |
| Labels.LeastOfAdded | script.js:1232 | adding a string to a set keeps the old least element least, or the new string is least |
| Labels.LeastExists | script.js:1232 | every finite non-empty set of strings has a least element |
| Labels.SortedClasses | script.js:1232 | `Array.from(knownClasses).sort()` is strictly increasing and holds exactly the known classes, each once |
| Labels.SortedPosition | script.js:1232 | in the sorted class list, the classes before position `i` are exactly the known classes smaller than the one at `i` |
| Store.NormalizedClamped | script.js:693-704 | the box spanned by two points keeps the label and, when its corners are ordered, lies inside the image. A point is in it exactly when it lies between the two points on both axes and inside the image |
| Store.BigEnough | script.js:671-674 | the drag spans at least `MIN_BOX_SIZE_PX` CSS pixels on both axes, i.e. `abs(delta) / dpr >= 4` |
| Store.ProperClampedInside | script.js:699-706 | a normalised, clamped box with area lies inside the image |
| Store.CommitDraw | script.js:664-719 | the draw outcome, each case with its exact condition: too small on screen (less than 4 CSS pixels on an axis), no class chosen, label already on the image, degenerate after clamping, or added. An added box has the chosen label, has area, lies inside the image, and covers exactly the dragged rectangle cut to the image |
| Store.DrawKeepsInvariant | script.js:685-711 | an added box is appended at the end and the other boxes stay. Labels stay unique and known, and any other outcome changes nothing |
| Store.ReplaceKeepsInvariant | script.js:918-947 | a geometric edit of one box that keeps its label keeps the image's labels unique and known |
| Store.StoreUpdate | script.js:709 | replacing one image's boxes with boxes that satisfy the image invariant keeps the store invariant |
| Store.HasLabel | script.js:686 | some box on the image carries the label |
| Store.AfterDraw | script.js:709 | the image's boxes after a draw: the new box pushed at the end on success, unchanged otherwise |
| Store.FindOtherWithLabel | script.js:821-827 | the collision loop finds a box other than the edited one carrying the new label exactly when there is one |
| Store.OtherHasLabel | script.js:821-826 | a box other than the edited one carries the label |
| Store.AfterEdit | script.js:829-831 | the boxes after an edit: the edited box relabelled on a rename, unchanged otherwise |
| Store.EditLabel | script.js:807-836 | the label edit outcome, each case with its exact condition. Cancelled when the prompt is dismissed. Otherwise it is decided on the normalised label: empty, not a known class, carried by another box, unchanged, or renamed to it |
| Store.DecideEdit | script.js:809-831 | the checks of the double-click handler, in source order, give the outcome `EditLabel` specifies |
| Store.EditKeepsInvariant | script.js:829-832 | an edit changes at most the edited box's label. It changes it only to the normalised input, and only on a rename. The image keeps unique, known labels |
| Store.Splice | script.js:952 | `splice(i, 1)` removes exactly the box at `i` (as a multiset) and removes nothing for an index past the end |
| Store.SpliceShifts | script.js:952 | after `splice`, boxes before `i` keep their place and later ones move down one |
| Store.SpliceKeepsInvariant | script.js:949-957 | deleting a box keeps the image's labels unique and known |
| Store.FirstOccurrencesLabels | script.js:1464-1477 | the reference selection carries a label exactly when the label is in the file and not on the image |
| Store.Accepted | script.js:1464-1477 | the boxes the `forEach` keeps, appending each box whose label is on neither the image nor the boxes already kept. `AcceptedIsFirstOccurrences` equates it to the reference selection |
| Store.AcceptedIsFirstOccurrences | script.js:1464-1477 | the import keeps exactly the first box of each label not on the image, in file order |
| Store.FirstOccurrencesPrefixOf | script.js:1464-1477 | the selection among the first `m` boxes depends only on those boxes |
| Store.AcceptedFromIncoming | script.js:1464-1477 | every kept box comes from the file, and no more boxes are kept than were read |
| Store.MergeKeepsUnique | script.js:1458-1480 | the merge keeps the existing boxes as a prefix and keeps labels unique. Every label in the file ends up on the image |
| Store.LabelSet | script.js:1462 | the label set of a box list holds exactly the labels carried by its boxes |
| Store.LabelSetSnoc | script.js:1474 | appending a box adds its label to the label set |
| Store.ImageInvariantWiden | script.js:1498 | adding known classes keeps an image's invariant |
| Store.MergeImported | script.js:1459-1477 | the `forEach` over the parsed boxes yields the kept boxes (`validBoxes`) and their labels (`labelsInThisXml`) |
| Store.MergeKeepsImageInvariant | script.js:1458-1480 | the merged image has unique labels, all of them known once the kept labels are added |
| Store.AcceptedLabelsNormal | script.js:1475 | the labels an import adds to the known classes are storable labels |
| Store.ImportKeepsInvariant | script.js:1458-1498 | one merge keeps the whole store invariant, with the kept labels added to the known classes |
| Interaction.Opposite | script.js:926-931 | the opposite corner of a handle is a different handle |
| Interaction.CanvasRect | script.js:850-855 | the canvas rectangle of a box has ordered sides |
| Interaction.Contains | script.js:857 | the inclusive hit test on the canvas rectangle. `ContainsMeansInBox` restates it in image space |
| Interaction.ScaleMonotone | script.js:850-857 | scaling by a positive factor and panning keeps the order of two values |
| Interaction.MinMaxScaled | script.js:852-855 | the min and max of scaled values are the scaled min and max |
| Interaction.CanvasRectX | script.js:850-855 | the rectangle's horizontal sides are the box's ordered x-range, scaled and panned |
| Interaction.CanvasRectY | script.js:850-855 | the rectangle's vertical sides are the box's ordered y-range, scaled and panned |
| Interaction.CanvasRectOfBox | script.js:850-855 | for a positive scale, the canvas rectangle is the image of the ordered box |
| Interaction.ContainsMeansInBox | script.js:857 | the inclusive hit test holds exactly when the image point under the mouse lies in the box, whichever way its corners are ordered |
| Interaction.ContainsX | script.js:857 | the horizontal half of the hit test, stated on the image x-axis |
| Interaction.ContainsY | script.js:857 | the vertical half of the hit test, stated on the image y-axis |
| Interaction.SpanScaled | script.js:857 | a value lies between two others exactly when its scaled and panned image does |
| Interaction.TopmostHit | script.js:848-861 | the hit is the highest-index box containing the point, and None exactly when no box contains it |
| Interaction.AnnotationAt | script.js:843-862 | the reverse loop returns the highest-index box containing the point, or None when there is none |
| Interaction.HandleIndex | script.js:880-883 | each handle's place in the test order `nw, ne, sw, se` |
| Interaction.HitArea | script.js:877 | the handle hit distance `(HANDLE_SIZE / 2 + HANDLE_HIT_TOLERANCE) * dpr` |
| Interaction.Near | script.js:879-882 | a corner is under the mouse when both axis distances are strictly below the hit distance |
| Interaction.HandleAt | script.js:864-886 | a returned handle's corner is strictly within `(4 + 6) * dpr` of the point on both axes |
| Interaction.HandleAtFirstMatch | script.js:880-883 | whenever some corner is near the point, a handle is found, and it is not later in the order than that corner |
| Interaction.HandleOnBoxCorner | script.js:870-883 | for an ordered box, each handle sits on the canvas image of the corner it drags |
| Interaction.Resized | script.js:926-931 | resizing moves the dragged corner to the image point and keeps the opposite corner and the label |
| Interaction.ResizeTracksMouse | script.js:924-930 | during a resize, the dragged corner is drawn exactly under the mouse |
| Interaction.CommitResize | script.js:721-744 | the resize commit is None exactly when the normalised, clamped box has no area. Otherwise the committed box has area, lies inside the image, keeps the label, and covers exactly the dragged box cut to the image |
| Interaction.AfterResize | script.js:737-744 | the box after the resize commit: the commit when it has area, otherwise the box as dragged |
| Interaction.CommitResizeIdempotent | script.js:725-738 | committing a committed box gives the same box |
| Interaction.ResizeCommitSpansOpposite | script.js:725-738 | a resize followed by its commit spans the mouse's image point and the fixed opposite corner, clipped to the image, whichever side the mouse ended on |
| Interaction.FlippedResizeIsNormalised | script.js:725-738 | for every box and every mouse point past its south-east corner, with both points on the image: dragging `nw` there stores flipped corners, and the commit keeps the box from the old south-east corner to the mouse point (no revert) |
| Interaction.Translated | script.js:943-946 | a move shifts all four coordinates by the delta, keeping the size and the label |
| Interaction.ImageDelta | script.js:940-941 | the image-space delta of a mouse step: the canvas delta over the scale |
| Interaction.MoveFollowsMouse | script.js:940-946 | on screen, each corner of a moved box shifts by exactly the mouse's canvas delta |
| Interaction.MoveStepsCompose | script.js:640-643 | successive move steps add up to one move from the first to the last mouse position |
| Interaction.CommitMove | script.js:756-764 | the move commit keeps the size and the label and changes nothing without a cached size. With one, the top-left corner is pulled into the image, and the box ends on the image whenever it fits |
| Interaction.CommitMoveNearest | script.js:760-761 | a box that fits is placed on the image, is left alone when already inside, and lands at the position on the image nearest the drop on each axis |
| Interaction.MoveThenCommitInside | script.js:752-765 | a move drag and its commit leave a box that fits the image on the image, with the same size and label |
| Interaction.SquareLess | script.js:631 | for non-negative numbers, a strictly smaller number has a strictly smaller square |
| Interaction.SquareAtMost | script.js:631 | for non-negative numbers, squaring keeps `<=` |
| Interaction.Promotes | script.js:629-632 | the drag has left the press point by more than `5 * dpr`, compared as squares. `PromotesBounds` states it on each axis |
| Interaction.PromotesBounds | script.js:629-632 | a drag beyond `5 * dpr` on either axis turns a selection into a move; one within half of that on both axes does not |
| Interaction.PressOutcome | script.js:569-604 | the mouse-down dispatch, first match wins: a handle of the selected box starts a resize, else the topmost box hit is selected, else draw mode starts a draw, else a pan. Draw and pan clear the selection |
| Interaction.EscapeOutcome | script.js:1089-1098 | Escape cancels a draw drag, else clears the selection, else leaves draw mode, else does nothing; each action with its exact condition |
| Yolo.IndexOf | script.js:1132 | `indexOf`: -1 exactly when absent, otherwise the first position of the label |
| Yolo.Unit | script.js:1140-1143 | clamping to `[0, 1]` stays in range and leaves values in range alone |
| Yolo.Fraction | script.js:1136-1143 | a value times `1 / size`, clamped, lies in `[0, 1]` |
| Yolo.FormatYoloLine | script.js:1127-1154 | `null` exactly when the label is not in the class list or a side is `<= 0`. Otherwise the class index is the label's first position and all four values lie in `[0, 1]` |
| Yolo.FractionExact | script.js:1140-1142 | a value in `[0, size]` is not clamped: its fraction times the side is the value |
| Yolo.SpanExact | script.js:1137-1142 | the centre and length fractions of a span inside the side scale back to the span's centre and length |
| Yolo.YoloFieldsX | script.js:1136-1143 | a line's x-centre and width are the clamped fractions of the ordered box's centre and width |
| Yolo.YoloFieldsY | script.js:1136-1143 | a line's y-centre and height are the clamped fractions of the ordered box's centre and height |
| Yolo.YoloLineInsideX | script.js:1137-1143 | for a box inside the image, the x-centre and width times the image width are exactly the box's |
| Yolo.YoloLineInsideY | script.js:1137-1143 | for a box inside the image, the y-centre and height times the image height are exactly the box's |
| Yolo.SpanFromCentre | script.js:1137-1138 | centre and length determine the two ends of a span |
| Yolo.YoloDecode | script.js:1137-1143 | for a box inside the image, decoding its line (centre plus or minus half size, times the side) gives back the ordered corners |
| Yolo.DistinctPrefixCard | script.js:1232 | the first `i` elements of a strictly sorted list are `i` different strings |
| Yolo.SortedRank | script.js:1232 | a class's position in the sorted class list is the number of known classes before it in sort order |
| Yolo.ClassIndexIsRank | script.js:1132 | over the sorted class list, a known label always yields a line, and its class index is its rank among the known classes |
| Yolo.YoloLines | script.js:1252-1253 | mapping and filtering gives at most one line per box, all in `[0, 1]`, and none for an image with a side `<= 0` |
| Yolo.YoloLinesComplete | script.js:1252-1253 | for a valid image whose labels are all listed, there is exactly one line per box, in box order |
| Voc.EscapeChar | script.js:1163-1169 | the five special characters become entities (`&...;`); every other character is kept |
| Voc.IsSpecial | script.js:1162 | the five characters `escapeXml` replaces: `<`, `>`, `&`, `'` and `"` |
| Voc.EscapeXml | script.js:1159-1172 | escaped text is no shorter and contains no `<`, `>`, `'` or `"` |
| Voc.EscapeIdentity | script.js:1162 | escaping leaves a text unchanged exactly when it has no special character |
| Voc.EscapeLength | script.js:1162 | escaping never shortens a text |
| Voc.EscapeConcat | script.js:1162 | escaping works character by character: it distributes over concatenation |
| Voc.UnescapeStep | script.js:1513 | the parser decodes an escaped character followed by any text to that character followed by the decoded text |
| Voc.UnescapePlain | script.js:1513 | a non-special character starts no entity and decodes as itself |
| Voc.UnescapeXml | script.js:1513 | the parser's entity decoding for the five predefined entities. `UnescapeEscape` proves it undoes `escapeXml` |
| Voc.UnescapeEscape | script.js:1178 | the parser's entity decoding undoes `escapeXml` |
| Voc.EscapedTextHasNoMarkup | script.js:1194-1203 | an escaped file name or label cannot open or close an element |
| Voc.Rounded | script.js:1190-1194 | each written bound is the rounded min or max of the box's coordinates, and the label is kept |
| Voc.VocEntries | script.js:1188-1214 | at most one entry per box, and every entry written has `xmin < xmax` and `ymin < ymax` |
| Voc.Kept | script.js:1197 | an entry is written only when `xmin < xmax` and `ymin < ymax` |
| Voc.WideBoxKept | script.js:1197 | a box at least one pixel wide and tall is never skipped |
| Voc.VocEntriesAllKept | script.js:1188-1214 | when no box is skipped, there is one entry per box, in box order |
| Voc.ObjectsStep | script.js:1188-1214 | one more box adds its `<object>` exactly when it is kept |
| Voc.EntryXml | script.js:1202-1213 | one `<object>` element: escaped name, pose, truncated and difficult flags, and the four rounded bounds |
| Voc.ObjectsXml | script.js:1188-1214 | the `<object>` elements of the entries, in order. `ObjectsStep` relates it to the loop |
| Voc.Header | script.js:1176-1186 | everything before the first `<object>`: folder, escaped file name, source, rounded size with depth 3, and the segmented flag |
| Voc.VocXml | script.js:1174-1218 | header, then one `<object>` per kept box, then `</annotation>`. `CreatePascalVocXml` is proved to build exactly this |
| Voc.CreatePascalVocXml | script.js:1174-1218 | the `+=` loop builds the header, then one `<object>` per kept box in box order, then the closing tag |
| Voc.ParseObject | script.js:1510-1520 | an object is skipped exactly when it has no name or no bndbox, an empty normalised label, or a missing or non-numeric coordinate. Otherwise the box has the normalised label and the min and max of the read bounds on each axis |
| Voc.ParseVoc | script.js:1505-1524 | at most one box per object |
| Voc.ParseVocWellFormed | script.js:1513-1520 | every box read has a storable label and ordered corners |
| Voc.ParsePascalVoc | script.js:1505-1524 | the `for..of` with `push` returns the box of each object not skipped, in document order |
| Voc.ReadBackAll | script.js:1508-1509 | one parsed record per written object |
| Voc.ReadNumeral | script.js:1517 | `parseFloat` on the integer numerals the writer emits: their value, NaN for anything else |
| Voc.EntryBoxes | script.js:1520 | one box per entry |
| Voc.ReadBackFields | script.js:1517 | a written object reads back with its own label text and its four numbers |
| Voc.ReadBackEntry | script.js:1510-1520 | a written object with a storable label parses to its entry's box |
| Voc.ParseReadBack | script.js:1505-1524 | written objects with storable labels parse back to their boxes, in order |
| Voc.VocEntriesNormal | script.js:1194 | when every box has a storable label, so does every entry written |
| Voc.ParseAfterWrite | script.js:1174-1218 | parsing what was written for boxes with storable labels gives the kept boxes, rounded, in order |
| Voc.WriteAfterRead | script.js:1188-1214 | writing the boxes of kept entries again gives back the same entries |
| Names.TailLength | script.js:1247 | counts the trailing characters that are neither `.` nor `/` |
| Names.StripExtension | script.js:1247 | `replace(/\.[^/.]+$/, "")` cuts the text at the extension's dot, and keeps a name without an extension whole |
| Names.ExtensionIsTail | script.js:1247 | the extension is exactly the trailing run without dots and slashes |
| Names.StripChangesIffExtension | script.js:1247 | stripping changes a name exactly when it has an extension, and a name has at most one |
| Names.StripAppended | script.js:1264 | stripping `name + "." + ext` gives `name` back |
| Names.FirstWithBase | script.js:1450 | `find` by base name: the first image with that base name, or None exactly when there is none |
| Names.FindBaseFrom | script.js:1450 | the same search, from a starting position on |
| Names.ResolveTarget | script.js:1446-1452 | a non-empty `<filename>` naming a loaded image wins, else the first image with the annotation file's base name, else None; any result is a loaded image |
| Names.ExportedFileFindsImage | script.js:1449-1451 | an exported `.xml` loaded without a usable `<filename>` finds an image with the base name it was exported from |
| Names.VocFileName | script.js:1264 | the VOC file of an image is its base name plus `.xml`; `ExportedFileFindsImage` shows import finds the image again |
| Names.YoloFileName | script.js:1255 | the YOLO file of an image is its base name plus `.txt` |
| Names.IsXmlName | script.js:1431 | `toLowerCase().endsWith('.xml')` holds exactly for names ending in a dot and `xml` in any case |
| Names.SanitizeLabel | script.js:1385 | the sanitised label has the UTF-16 length of the label and holds only letters, digits and `_` |
| Names.SanitizeChar | script.js:1385 | a letter or digit is kept; any other character becomes one `_` per UTF-16 code unit, because the regex has no `u` flag |
| Names.IsAlnum | script.js:1385 | the characters `[^a-z0-9]` with the `i` flag leaves alone: ASCII letters and digits |
| Names.Utf16Length | script.js:1385 | a text's JavaScript `length` is at least its number of characters |
| Names.SanitizeConcat | script.js:1385 | the sanitiser distributes over concatenation |
| Names.SanitizeKeeps | script.js:1385 | a label is written unchanged exactly when all its characters are letters, digits or `_` |
| Names.SanitizeAstral | script.js:1385 | an emoji (a surrogate pair) gives two underscores: `a😀` becomes `a__` |
| Names.SanitizeIdempotent | script.js:1385 | sanitising twice is sanitising once |
| Names.DigitsAfterLastUnderscore | script.js:1391 | equal names ending in `_` and digits have equal digit runs |
| Names.CropFilenamesDistinct | script.js:1391 | crops at different positions get different file names, whatever their labels |
| Names.CropFilename | script.js:1391 | `${base}_${sanitised label}_${index}.${ext}`. `CropFilenamesDistinct` proves different indices give different names |
| Names.CropOf | script.js:1383-1387 | a crop is skipped exactly when a rounded side is zero. Otherwise it is the rounded origin and size of the box, each side at least 1 |
| Names.CropJobs | script.js:1382-1402 | each crop belongs to a box not skipped, with that box's rectangle and name, in increasing box order |
| Names.CropJobsComplete | script.js:1382-1391 | every box not skipped is cropped |
| Names.CropFilenamesUnique | script.js:1391 | no two crops of one image share a file name |
| Names.CropFormat | script.js:1364 | the chosen format, or `png` when none is chosen |
| Names.MimeType | script.js:1365-1366 | `image/<format>` for the five listed formats, `image/png` otherwise |
| Session.Predefined | script.js:42 | the initial known classes are exactly the predefined ones |
| Session.Counted | script.js:1481-1489 | a merged file counts as loaded when a box was kept, or when the file had no boxes (no duplicate was skipped) |
| Session.MergeInto | script.js:1458-1481 | one file's merge into its target image: keeps `Accepted`, records the labels found and updates the loaded count. `MergeIntoKeepsStoreInvariant` states what it preserves |
| Session.ImportFile | script.js:1430-1493 | one annotation file: non-XML names skipped, unreadable documents counted as errors, unmatched files skipped, the rest merged into their target |
| Session.ImportFiles | script.js:1430-1494 | the files processed in list order. `ImportKeepsStoreInvariant`, `ImportKeepsExisting` and `ImportCounts` state its properties |
| Session.MergeIntoKeepsStoreInvariant | script.js:1458-1480 | merging one file keeps the store invariant once the labels found are known, and only adds to them |
| Session.ImportOne | script.js:1430-1493 | one annotation file: non-XML names are skipped and unreadable or unparsable files count as errors. A file with no matching image is skipped, and every other file is merged into its target |
| Session.ImportAll | script.js:1430-1494 | the files are processed in list order |
| Session.ImportFileKeepsStoreInvariant | script.js:1430-1498 | processing one file keeps the store invariant once the labels found are known |
| Session.ImportKeepsStoreInvariant | script.js:1496-1498 | a whole import keeps the store invariant once the labels found are known, and only adds to them |
| Session.ImportKeepsExisting | script.js:1480 | an import only appends: each image keeps its boxes as a prefix, and boxes go only to loaded images |
| Session.ImportCounts | script.js:1481-1489 | each file counts at most once, as loaded or as an error |
| Session.EditImage | script.js:809-836 | the label edit of one box in the store: its outcome, and the store renamed only on a rename, with the invariant kept |
| Session.Annotator.CurrentName | script.js:660 | the current file name is present exactly when the current index is in range |
| Session.Annotator.constructor | script.js:37-58 | the initial state: no images, index -1, empty store and cache, the predefined classes, scale 1, no pan, draw mode off, nothing selected, no gesture |
| Session.Annotator.LoadImage | script.js:204-215 | an index out of range changes nothing. Otherwise the shown image and the selection are cleared and that file is read |
| Session.Annotator.ImageLoaded | script.js:217-228 | a load for a position other than the current one changes nothing. Otherwise the image is shown and its size cached, and the view is reset and fitted. The gesture is reset except for its resize handle |
| Session.Annotator.ImageLoadFailed | script.js:230-248 | a failed read or decode clears the shown image and nothing else |
| Session.Annotator.OpenImages | script.js:137-153 | an empty choice changes nothing. Otherwise the list is replaced and the store, cache and classes are reset; position 0 is loaded with nothing selected |
| Session.Annotator.PrevImage | script.js:332-337 | at the first position nothing changes. Otherwise the position moves back one and that image is loaded |
| Session.Annotator.NextImage | script.js:339-344 | at the last position nothing changes. Otherwise the position moves on one and that image is loaded |
| Session.Annotator.Zoom | script.js:347-366 | the view becomes the clamped, pivot-preserving zoom; nothing else changes |
| Session.Annotator.ZoomIn | script.js:368-372 | zooms by `ZOOM_STEP` about the container's centre |
| Session.Annotator.ZoomOut | script.js:374-378 | zooms by `1 / ZOOM_STEP` about the container's centre |
| Session.Annotator.WheelZoom | script.js:380-391 | without an image nothing changes. Otherwise it zooms by the wheel factor about the mouse |
| Session.Annotator.WindowResized | script.js:314-329 | with an image it is fitted again; without one nothing changes |
| Session.Annotator.MouseDown | script.js:559-605 | without an image or for a non-main button nothing changes. Otherwise a drag starts at the point, with the mode and selection of the dispatch |
| Session.Annotator.ResizeAnnotation | script.js:918-932 | with a selected box and a handle, the dragged corner moves to the mouse's image point. Otherwise nothing changes |
| Session.Annotator.MoveAnnotation | script.js:934-947 | with a selected box, it shifts by the step's image-space delta. Otherwise nothing changes |
| Session.Annotator.MouseMove | script.js:607-654 | when not dragging or without an image nothing changes. Otherwise: draw only tracks, resize drags the corner, select turns into move past the threshold, move shifts the box, pan adds the raw delta. The last point is updated |
| Session.Annotator.FinishDraw | script.js:664-719 | an added box is appended to the current image and selected. Otherwise the store and the selection are unchanged |
| Session.Annotator.FinishResize | script.js:721-750 | the resized box is replaced by its commit when that has area. Otherwise it stays as dragged |
| Session.Annotator.FinishMove | script.js:752-768 | with a cached size, the moved box is replaced by its clamped commit |
| Session.Annotator.DrawCommitted | script.js:685-711 | the effect of a draw commit: on success the box is appended to the current image and selected, otherwise the store and the selection are unchanged |
| Session.Annotator.ResizeCommitted | script.js:721-744 | the effect of a resize commit: the selected box replaced by its commit when that has area, otherwise left as dragged |
| Session.Annotator.MoveCommitted | script.js:752-764 | the effect of a move commit: with a cached size, the selected box replaced by its clamped commit |
| Session.Annotator.Released | script.js:656-781 | what every mouse-up leaves: the gesture reset, and the commit of the gesture's mode applied |
| Session.Annotator.MouseUp | script.js:656-785 | when not dragging or for a non-main button nothing changes. Otherwise the gesture's commit is applied and the gesture reset |
| Session.Annotator.MouseLeave | script.js:787-793 | leaving during a drag ends it as a mouse-up does |
| Session.Annotator.EditSelected | script.js:801-836 | the selected box's label is renamed when the edit is accepted. Otherwise the store is unchanged |
| Session.Annotator.LabelEdited | script.js:807-836 | the effect of a label edit: the selected box renamed exactly when `EditLabel` accepts the input |
| Session.Annotator.DoubleClick | script.js:795-840 | the label is edited only when the topmost box under the mouse is the selected one |
| Session.Annotator.DeleteSelected | script.js:949-961 | the selected box is spliced out and the selection cleared. Without a selection nothing changes |
| Session.Annotator.ToggleDrawMode | script.js:1048-1055 | before any image nothing changes. Otherwise draw mode flips, the selection is cleared and the gesture mode reset |
| Session.Annotator.KeyEscape | script.js:1089-1098 | the Escape chain: cancel a draw drag, else deselect, else leave draw mode, else nothing |
| Session.Annotator.ImportAnnotations | script.js:1416-1503 | without files or images nothing changes. Otherwise the files are merged in list order, the labels found are added to the known classes, and the loaded and error counts are returned |

## Left out

- Rendering and the page: `redrawAll`, `drawAnnotation`, the handle drawing, canvas resizing, `updateUIState`, `updateAnnotationList`, `populateClassDropdown`, `setStatus`, `alert`, `confirm` and console output. They produce pixels or DOM text, so they are not modelled.
- Cursors: `getResizeCursor`, `updateCursorOnHover`, `updateCursorBasedOnMode` and `setCanvasCursor` only set cursor strings. `interactionState.cursor` is not part of `Session.Gesture`.
- Keyboard routing other than Escape: `handleKeyDown` maps keys to `prevImage`, `nextImage`, `deleteSelectedAnnotation`, `zoomIn`, `zoomOut`, `toggleDrawMode` and save. These operations are modelled. The key table and the button-disabled gates of `updateUIState` are page logic and are not.
- Adding images (`handleImageFiles` in add mode) is not modelled. It depends on `localeCompare`, which is locale dependent. For the same reason, open mode takes the file names already sorted.
- Asynchronous I/O: `FileReader`, `Image` decoding and `getImageDimensions` are not modelled. Their results are parameters: a natural size for `ImageLoaded`, and a parsed document or None for each annotation file. Promise ordering is not modelled either; import processes the files in list order.
- `saveAllAnnotations` and `saveCrops` as orchestration: JSZip, `triggerDownload`, `Blob`, `drawImage` and `toBlob` are not modelled. The per-image pieces are: the YOLO lines, the VOC document, the file names and the crop rectangles.
- XML parsing: the `DOMParser`, well-formedness and the `parsererror` path become a document that is present or absent. Each `<object>` is a record with optional fields.
- The text of numbers: `toFixed(6)` is not modelled, and a YOLO line is its tuple of reals. Only the integer numerals the VOC writer emits are read back. `parseFloat` is otherwise a coordinate that is present, NaN or missing.
- `Labels.LowerChar`: does not model `toLowerCase` beyond ASCII and Latin-1 letters, because full Unicode case mapping (which can change the length) is out of scope.
- `Labels.StrLessTotal`: the sort order compares characters as code points, which matches the UTF-16 order of `sort()` only for characters in the Basic Multilingual Plane.
- Dafny characters are Unicode scalar values, so labels holding unpaired surrogates, which JavaScript strings allow, are not modelled.
- `Voc.UnescapeStep`: the parser's entity decoding is modelled only for the five predefined entities, not for numeric character references.
- The class list selection is assumed to be a known class, as `populateClassDropdown` keeps it (script.js:76-99). `Session.Annotator.MouseUp` requires this of `chosen`.
- The "annotation not found" branch of the resize commit (script.js:745-748) cannot be reached while a selection points into the current image's boxes, which the Annotator invariant keeps. It is not modelled.
- The `try`/`catch` blocks of `formatYoloLine` (script.js:1131-1153) and `parsePascalVoc` (script.js:1507-1523) are not modelled, because over reals and records nothing in them throws.
