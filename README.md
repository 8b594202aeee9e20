# VFLabel annotation core in Dafny

VFLabel is a labelling tool for high-speed videos of the vocal folds. This project models the annotation
state behind its pages and proves properties of it:

- **Vocal-fold segmentation page** (`VocalfoldSegmentation`): the key-frame transform table `dict_transform`.
  - In memory it is a map from frame to `[x, y, scale, rotation]` plus the dictionary's key order.
  - The page seeds the table with the two boundary frames. End-of-segment selection inserts an identity transform and re-sorts the keys. The move-frame update overwrites one entry.
  - `remove_mark` is modelled as written.
  - `save` walks the frames and aborts at the first sentinel frame.
  - The JSON document `{dict_transform, marks_list, polygon}` is written and read back.
- **Laser-point grid** (`ManualPointClicking`): the `frames x rows x cols` grid of clicked positions, with NaN meaning "unset".
  - A click with a beam selected is bounds-checked and stored in one slot.
  - Removing a marker clears its beam in every frame.
  - `get_point_indices` lists the set slots in row-major order.
  - Also modelled: the draw/remove modes and frame stepping.
- **Polygon editors** (`SegmentationDrawing`, `PointClicking`): a bounds-checked point list, a parallel marker list, and pop-last. In the segmentation drawer the polygon is visible only with more than two points.
- **Pure helpers** (`Transforms`, `Utils`):
  - `lerp`;
  - the clamped point-to-segment distance;
  - the alpha rule for black pixels;
  - the class-colour image;
  - the strict in-bounds filter of `draw_per_batch`.
- **Main window** (`MainWindow`):
  - one glottal midline per segmentation frame;
  - the `Frame<i>` midline dictionary, with its `[-1, -1]` sentinel;
  - the `{i:05d}.png` frame names (`Formatting`);
  - the `progress_gl_seg` update.

Coordinates are `real`. Frame indices are `nat`. Decimal text appears only where the source writes or parses text.

The model uses Python's own semantics in three places:

- **Text never equals an integer.** `PyValue` keeps the two kinds apart.
- **NumPy reads a negative index from the end.** `NumpyIndex` does the same.
- **Dictionaries keep insertion order.** Each table carries a `keyOrder` sequence.

Qt signals are recorded in ghost event logs. Work that the page hands to other components becomes a parameter:

- the rendering of a frame;
- the midline detector;
- the drawing view's polygon;
- the hit-test of a click.

## Model

| member | source | states |
|---|---|---|
| Enums.Mode.Toggled | VFLabel/gui_graphics_view/segmentationDrawer.py:87-93 | Toggling always yields the other mode. |
| Formatting.Decimal | VFLabel/gui/vocalfoldSegmentationWidget.py:74 | `str(n)` is a non-empty string of digits with no leading zero. |
| Formatting.ParseDecimal | VFLabel/gui/vocalfoldSegmentationWidget.py:297-302 | Reading back the text of a frame gives that frame. |
| Formatting.DecimalOfParse | VFLabel/gui/vocalfoldSegmentationWidget.py:300-303 | Every canonical key text is `str(int(key))`, so `int` loses nothing. |
| Formatting.DecimalInjective | VFLabel/gui/vocalfoldSegmentationWidget.py:297 | Distinct frames have distinct key texts. |
| Formatting.PadDecimal | VFLabel/gui/mainWindow.py:237 | `{i:05d}`: the result is all digits. Its length and value are in FrameFileNameLength and FrameFileNameRoundTrip. |
| Formatting.FrameFileName | VFLabel/gui/mainWindow.py:237 | Definition of `{i:05d}.png`; its properties are in FrameFileNameRoundTrip, FrameFileNameInjective and FrameFileNameLength. |
| Formatting.FrameFileNameRoundTrip | VFLabel/gui/mainWindow.py:237 | Parsing `{i:05d}.png` gives back `i`. |
| Formatting.FrameFileNameInjective | VFLabel/gui/mainWindow.py:237 | Distinct frames get distinct file names. |
| Formatting.FrameFileNameLength | VFLabel/gui/mainWindow.py:237 | Below 100000 every name is 9 characters: five zero-padded digits and `.png`. |
| Geometry.SqNormNonNegative | VFLabel/utils/utils.py:212 | `sum((B-A)**2)` is non-negative, and zero exactly for the zero vector. |
| Geometry.SqDistSymmetric | VFLabel/utils/utils.py:219 | Squared distance is symmetric and non-negative, and zero exactly between equal points. |
| Transforms.Lerp | VFLabel/utils/transforms.py:64-65 | `t = 0` gives `v0`, `t = 1` gives `v1`, equal ends give that value, `t = 1/2` gives the average. |
| Transforms.LerpBetween | VFLabel/utils/transforms.py:64-65 | For `t` in [0, 1] the result lies between `v0` and `v1`. |
| Utils.Clamp01 | VFLabel/utils/utils.py:217 | `max(0, min(1, v))` lies in [0, 1] and leaves values already in [0, 1] alone. |
| Utils.ProjectionParameter | VFLabel/utils/utils.py:211-217 | The projection parameter always lies in [0, 1]. |
| Utils.SameEnds | VFLabel/utils/utils.py:214-215 | When A == B the result is the (squared) distance from P to A. |
| Utils.Projection | VFLabel/utils/utils.py:218 | Definition of the nearest point `A + t (B - A)`; ProjectionOnSegment states where it lies. |
| Utils.SegmentSqDistance | VFLabel/utils/utils.py:211-219 | Definition of the squared distance from P to its projection; its properties are in SegmentSqDistanceBounds and the lemmas after it. |
| Utils.SegmentSqDistanceBounds | VFLabel/utils/utils.py:211-219 | The distance is non-negative and never exceeds the distance from P to A or to B. |
| Utils.PointOnSegment | VFLabel/utils/utils.py:217-219 | Every point of segment [A, B] is at distance 0. |
| Utils.ProjectionOnSegment | VFLabel/utils/utils.py:217-218 | The projection is `lerp(A, B, t)` coordinate-wise and lies between A and B. |
| Utils.Stack | VFLabel/utils/utils.py:127 | `np.dstack` of an H x W x 3 image and an H x W channel: H x W x 4, the three channels copied and the fourth the given channel. |
| Utils.AddAlphaToSegmentations | VFLabel/utils/utils.py:114-129 | The result is H x W x 4. RGB is copied. Alpha is 0 exactly at pixels whose three channels are 0, else 255. |
| Utils.ClassToColor | VFLabel/utils/utils.py:96-111 | A pixel of class `k < len(colors)` gets exactly `colors[k]`; any other pixel stays 0. |
| Utils.AddSegment | VFLabel/utils/utils.py:101-105 | One loop step paints class `k` onto the image accumulated so far and leaves other pixels unchanged. |
| Utils.Truncate | VFLabel/utils/utils.py:196 | `astype(np.int32)` truncates toward zero. |
| Utils.InBoundsPoints | VFLabel/utils/utils.py:195-203 | The filter never adds points, and every kept point has `0 < row < H` and `0 < col < W`. |
| Utils.InBoundsPointsAppend | VFLabel/utils/utils.py:198-203 | The filter distributes over concatenation, so kept points stay in their original order. |
| Utils.InBoundsPointsMembership | VFLabel/utils/utils.py:198-203 | A position is kept iff it is strictly inside and some input point truncates to it. |
| Utils.InBoundsPointsAllInside | VFLabel/utils/utils.py:198-203 | When every point is inside, the output is the truncated input, point for point. |
| VocalfoldSegmentation.TransformOf | VFLabel/gui/vocalfoldSegmentationWidget.py:210 | `x, y, s, r = ...` succeeds exactly on four numbers and gives them back. |
| VocalfoldSegmentation.Insert | VFLabel/gui/vocalfoldSegmentationWidget.py:300-303 | Inserting a new key into ascending keys keeps them strictly ascending and adds exactly that key. |
| VocalfoldSegmentation.SortByValue | VFLabel/gui/vocalfoldSegmentationWidget.py:300-303 | `sorted(keys, key=int)` is a strictly ascending permutation of the keys. |
| VocalfoldSegmentation.InsertKeyFrame | VFLabel/gui/vocalfoldSegmentationWidget.py:297-303 | After the update `position` is a key and old entries keep their values. Present: table unchanged, order included. Absent: `[0,0,1,0]` added and keys re-sorted. |
| VocalfoldSegmentation.SetKeyFrame | VFLabel/gui/vocalfoldSegmentationWidget.py:313-314 | Only the entry of `frame` changes. An existing key keeps its place; a new one goes last. |
| VocalfoldSegmentation.Without | VFLabel/gui/vocalfoldSegmentationWidget.py:279 | `pop` removes exactly that key, keeps every other key, and keeps the keys distinct. |
| VocalfoldSegmentation.WithoutAt | VFLabel/gui/vocalfoldSegmentationWidget.py:279 | Popping a present key removes exactly its position; the keys before and after it keep their order. |
| VocalfoldSegmentation.WithoutKeyFrame | VFLabel/gui/vocalfoldSegmentationWidget.py:279 | Popping a key leaves a well-formed dictionary. |
| VocalfoldSegmentation.RemoveGuard | VFLabel/gui/vocalfoldSegmentationWidget.py:274-278 | Definition of the guard as written; RemoveGuardIsMembership and BoundaryFramesPassRemoveGuard state what it admits. |
| VocalfoldSegmentation.RemoveGuardIsMembership | VFLabel/gui/vocalfoldSegmentationWidget.py:274-279 | As written, the guard holds iff the frame is a key. The integer `value` is never a key of the string-keyed dictionary. |
| VocalfoldSegmentation.BoundaryFramesPassRemoveGuard | VFLabel/gui/vocalfoldSegmentationWidget.py:274-278 | The first and last frames pass the guard whenever they are keys. |
| VocalfoldSegmentation.Encode | VFLabel/gui/vocalfoldSegmentationWidget.py:234-250 | Definition of the saved document; DecodeEncode and EncodeDecode make it the inverse of loading. |
| VocalfoldSegmentation.EncodeTable | VFLabel/gui/vocalfoldSegmentationWidget.py:241 | Item `i` of the stored dictionary is `str(key_i)` with its four numbers, in insertion order. |
| VocalfoldSegmentation.DecodeTable | VFLabel/gui/vocalfoldSegmentationWidget.py:362 | A table read back is a well-formed dictionary with one entry per item. |
| VocalfoldSegmentation.DecodePolygon | VFLabel/gui/vocalfoldSegmentationWidget.py:364-369 | Row `i` becomes `QPointF(row[0], row[1])`; a row shorter than two fails. |
| VocalfoldSegmentation.EncodePolygon | VFLabel/gui/vocalfoldSegmentationWidget.py:243-248 | Point `i` becomes the row `[x, y]`, in order. |
| VocalfoldSegmentation.Decode | VFLabel/gui/vocalfoldSegmentationWidget.py:353-367 | A document read back yields a well-formed table. |
| VocalfoldSegmentation.DecodeEncodeTable | VFLabel/gui/vocalfoldSegmentationWidget.py:241 | Reading back a written table gives the same entries in the same order. |
| VocalfoldSegmentation.EncodeDecodeTable | VFLabel/gui/vocalfoldSegmentationWidget.py:362 | Writing back a table that read successfully reproduces its items exactly. |
| VocalfoldSegmentation.DecodeEncode | VFLabel/gui/vocalfoldSegmentationWidget.py:234-250 | Saving then loading gives back the same table, the same marks and the same polygon points in order. |
| VocalfoldSegmentation.EncodeDecode | VFLabel/gui/vocalfoldSegmentationWidget.py:350-370 | A loadable document with two numbers per polygon row is exactly what saving its contents writes. |
| VocalfoldSegmentation.FreshAnnotation | VFLabel/gui/vocalfoldSegmentationWidget.py:69-76 | With no saved state the keys are exactly 0 and n-1, in ascending order, both `[0,0,1,0]`. `marks_list == [0, n-1]`; no polygon. |
| VocalfoldSegmentation.FreshDocument | VFLabel/gui/vocalfoldSegmentationWidget.py:69-76 | The fresh table is stored as `{"0": [0,0,1,0], str(n-1): [0,0,1,0]}` with marks `[0, n-1]`. |
| VocalfoldSegmentation.VocalfoldSegmentationWidget.constructor | VFLabel/gui/vocalfoldSegmentationWidget.py:350-370 | An empty file gives the fresh defaults. Otherwise a document that starts up (decodes, holds the last frame, has a non-empty polygon) becomes the widget's state, with its polygon handed over. A fresh page has none handed over. The start-up signals are emitted. |
| VocalfoldSegmentation.VocalfoldSegmentationWidget.AddMark | VFLabel/gui/vocalfoldSegmentationWidget.py:265-268 | Only emits the slider value; no other state changes. |
| VocalfoldSegmentation.VocalfoldSegmentationWidget.RemoveMark | VFLabel/gui/vocalfoldSegmentationWidget.py:270-281 | As written: a `KeyError` is raised iff the frame is a key, and the table never changes. |
| VocalfoldSegmentation.VocalfoldSegmentationWidget.RemoveKeyFrame | VFLabel/gui/vocalfoldSegmentationWidget.py:270-281 | As intended: removes the frame iff it is a key other than the first or last, keeping the rest in order. |
| VocalfoldSegmentation.VocalfoldSegmentationWidget.EndSegmentSelected | VFLabel/gui/vocalfoldSegmentationWidget.py:292-311 | The table becomes `InsertKeyFrame` of the old one. The shown transform is the entry for `position`. `AttributeError` is raised, after those updates, exactly when no polygon has been handed over yet. |
| VocalfoldSegmentation.VocalfoldSegmentationWidget.PolygonUpdated | VFLabel/gui/vocalfoldSegmentationWidget.py:252-257 | The drawing view's points become the handed-over polygon, and the table is re-emitted. |
| VocalfoldSegmentation.VocalfoldSegmentationWidget.MoveFrameUpdated | VFLabel/gui/vocalfoldSegmentationWidget.py:313-315 | The table becomes `SetKeyFrame` of the old one. |
| VocalfoldSegmentation.VocalfoldSegmentationWidget.MarksUpdated | VFLabel/gui/vocalfoldSegmentationWidget.py:320-322 | The marks are replaced wholesale and re-emitted. |
| VocalfoldSegmentation.VocalfoldSegmentationWidget.Save | VFLabel/gui/vocalfoldSegmentationWidget.py:219-232 | Frames 0, 1, ... are written in order as `{i:05d}.png` up to the first sentinel. The document is stored iff every frame rendered, and then it is the encoded annotation. |
| ManualPointClicking.NumpyIndex | VFLabel/gui_graphics_view/manualPointClicker.py:202 | An index is in range iff `-n <= i < n`, and a negative index counts from the end. |
| ManualPointClicking.ForwardStep | VFLabel/gui_graphics_view/manualPointClicker.py:116-119 | Steps to the next frame unless at the last one. |
| ManualPointClicking.BackwardStep | VFLabel/gui_graphics_view/manualPointClicker.py:122-125 | As written: steps back whenever the frame is below `num_frames`. |
| ManualPointClicking.IntendedBackwardStep | VFLabel/gui_graphics_view/manualPointClicker.py:122-125 | As intended: steps back only from a frame above 0. |
| ManualPointClicking.ForwardStaysInVideo | VFLabel/gui_graphics_view/manualPointClicker.py:116-119 | Stepping forward never moves past `num_frames - 1`. |
| ManualPointClicking.BackwardStepLeavesVideo | VFLabel/gui_graphics_view/manualPointClicker.py:122-125 | From frame 0 the step goes to -1, which NumPy reads as the last frame. |
| ManualPointClicking.IntendedBackwardStaysInVideo | VFLabel/gui_graphics_view/manualPointClicker.py:122-125 | The intended step stays within the video and stops at frame 0. |
| ManualPointClicking.ManualPointClicker.constructor | VFLabel/gui_graphics_view/manualPointClicker.py:21-56 | The grid is `num_frames x grid_height x grid_width`, every slot unset. No beam, both modes off, frame 0. The grid sizes, 18 by default, are explicit parameters. |
| ManualPointClicking.ManualPointClicker.FrameForward | VFLabel/gui_graphics_view/manualPointClicker.py:116-120 | Moves one frame forward unless at the last frame. |
| ManualPointClicking.ManualPointClicker.FrameBackward | VFLabel/gui_graphics_view/manualPointClicker.py:122-126 | As written: always moves one frame back, also from frame 0. |
| ManualPointClicking.ManualPointClicker.FrameBackwardIntended | VFLabel/gui_graphics_view/manualPointClicker.py:122-126 | As intended: moves back iff above frame 0. |
| ManualPointClicking.ManualPointClicker.ToggleRemoveMode | VFLabel/gui_graphics_view/manualPointClicker.py:128-136 | Draw mode becomes OFF and remove mode flips. |
| ManualPointClicking.ManualPointClicker.ToggleDrawMode | VFLabel/gui_graphics_view/manualPointClicker.py:138-146 | Remove mode becomes OFF and draw mode flips. |
| ManualPointClicking.ManualPointClicker.DrawModeOn | VFLabel/gui_graphics_view/manualPointClicker.py:148-151 | Draw mode is ON whatever it was. |
| ManualPointClicking.ManualPointClicker.DrawModeOff | VFLabel/gui_graphics_view/manualPointClicker.py:153-156 | Draw mode is OFF whatever it was. |
| ManualPointClicking.ManualPointClicker.RemoveModeOn | VFLabel/gui_graphics_view/manualPointClicker.py:158-161 | Remove mode is ON whatever it was. |
| ManualPointClicking.ManualPointClicker.RemoveModeOff | VFLabel/gui_graphics_view/manualPointClicker.py:163-166 | Remove mode is OFF whatever it was. |
| ManualPointClicking.ManualPointClicker.SetLaserIndex | VFLabel/gui_graphics_view/manualPointClicker.py:226-228 | Selects the beam `(x, y)`. |
| ManualPointClicking.ManualPointClicker.HasMarker | VFLabel/gui_graphics_view/manualPointClicker.py:207-209 | The scan finds a marker iff one exists for the beam. |
| ManualPointClicking.ManualPointClicker.AddPoint | VFLabel/gui_graphics_view/manualPointClicker.py:185-224 | No beam or a click outside the image leaves the grid alone. When the beam and the current frame index the grid (NumPy negative indices included), the point is always stored, and then exactly that slot becomes `(x, y)`. With a beam and a click inside the image the outcome is either stored or `IndexError`, and `IndexError` exactly when one of those indices is out of range. A marker is appended and `point_added` emitted iff the beam had none. Slots stay full or empty. |
| ManualPointClicking.ManualPointClicker.RemovePoint | VFLabel/gui_graphics_view/manualPointClicker.py:174-183 | A hit removes that marker and clears its beam in every frame, with all other indices untouched; a miss changes nothing. |
| ManualPointClicking.ManualPointClicker.ClearBeam | VFLabel/gui_graphics_view/manualPointClicker.py:181 | `point_positions[:, y, x] = nan` clears that beam in every frame and nothing else. |
| ManualPointClicking.ManualPointClicker.ScanFrom | VFLabel/gui_graphics_view/manualPointClicker.py:255-259 | Every triple the scan lists is in range, has its slot set, and is not before the cursor. |
| ManualPointClicking.ManualPointClicker.ScanFromComplete | VFLabel/gui_graphics_view/manualPointClicker.py:255-259 | Every set slot at or after the cursor is listed. |
| ManualPointClicking.ManualPointClicker.ScanFromAscending | VFLabel/gui_graphics_view/manualPointClicker.py:255-259 | The listed triples are strictly increasing in row-major order. |
| ManualPointClicking.ManualPointClicker.GetPointIndices | VFLabel/gui_graphics_view/manualPointClicker.py:255-259 | Returns exactly the `(frame, row, col)` triples whose slot is set, each once, in lexicographic order. |
| SegmentationDrawing.SegmentationDrawer.constructor | VFLabel/gui_graphics_view/segmentationDrawer.py:16-34 | Starts with draw mode off, no points or markers, and no polygon. The image height and width, 512 and 256 by default, are explicit parameters. |
| SegmentationDrawing.SegmentationDrawer.AddPolygon | VFLabel/gui_graphics_view/segmentationDrawer.py:147-154 | The polygon through the given points replaces the shown one; `segmentation_updated` is emitted once. |
| SegmentationDrawing.SegmentationDrawer.RemovePolygon | VFLabel/gui_graphics_view/segmentationDrawer.py:117-120 | No polygon is shown afterwards; the signal fires only if a polygon was ever added. |
| SegmentationDrawing.SegmentationDrawer.SetPolygonPoints | VFLabel/gui_graphics_view/segmentationDrawer.py:39-41 | Replaces the point list wholesale and draws it; markers untouched. |
| SegmentationDrawing.SegmentationDrawer.ToggleDrawMode | VFLabel/gui_graphics_view/segmentationDrawer.py:87-93 | Flips draw mode. |
| SegmentationDrawing.SegmentationDrawer.DrawModeOn | VFLabel/gui_graphics_view/segmentationDrawer.py:95-96 | Draw mode is ON whatever it was. |
| SegmentationDrawing.SegmentationDrawer.DrawModeOff | VFLabel/gui_graphics_view/segmentationDrawer.py:98-99 | Draw mode is OFF whatever it was. |
| SegmentationDrawing.SegmentationDrawer.AddPoint | VFLabel/gui_graphics_view/segmentationDrawer.py:122-145 | A point outside the image changes nothing. An accepted point is appended to both lists. The polygon is redrawn iff more than 2 points exist. |
| SegmentationDrawing.SegmentationDrawer.RemoveLastPoint | VFLabel/gui_graphics_view/segmentationDrawer.py:104-115 | Empty: no-op. Otherwise both lists lose their last entry. The polygon is redrawn with more than 2 points left and removed otherwise. An empty marker list raises `IndexError` after the point was popped. |
| SegmentationDrawing.SegmentationDrawer.MousePressed | VFLabel/gui_graphics_view/segmentationDrawer.py:58-64 | A click adds a point only in draw mode and inside the image. A rejected click changes nothing. An accepted click appends the point and redraws the polygon iff more than 2 points exist. |
| SegmentationDrawing.SegmentationDrawer.AddThenRemove | VFLabel/gui_graphics_view/segmentationDrawer.py:104-145 | Adding an in-image point and removing the last point restores both lists. |
| PointClicking.PointClickWidget.constructor | VFLabel/gui/pointClickWidget.py:14-29 | Starts with draw mode off and no points, in lockstep with no markers. The image height and width, 512 and 256 by default, are explicit parameters. |
| PointClicking.PointClickWidget.ToggleDrawMode | VFLabel/gui/pointClickWidget.py:71-77 | Flips draw mode. |
| PointClicking.PointClickWidget.DrawModeOn | VFLabel/gui/pointClickWidget.py:79-80 | Draw mode is ON whatever it was. |
| PointClicking.PointClickWidget.DrawModeOff | VFLabel/gui/pointClickWidget.py:82-83 | Draw mode is OFF whatever it was. |
| PointClicking.PointClickWidget.AddPoint | VFLabel/gui/pointClickWidget.py:96-115 | Accepted iff inside the image. An accepted point is appended last; the lists stay in lockstep. |
| PointClicking.PointClickWidget.RemoveLastPoint | VFLabel/gui/pointClickWidget.py:88-94 | Empty: no-op. Otherwise both lists lose their last entry. |
| PointClicking.PointClickWidget.MousePressed | VFLabel/gui/pointClickWidget.py:46-52 | A click adds a point only in draw mode and inside the image. |
| PointClicking.PointClickWidget.AddThenRemove | VFLabel/gui/pointClickWidget.py:88-115 | Adding an in-image point and removing the last point restores the point list. |
| MainWindow.EndpointEntry | VFLabel/gui/mainWindow.py:229-230 | A present end point is stored as its coordinates; the stored value always has two numbers. |
| MainWindow.EndpointOf | VFLabel/gui/mainWindow.py:229-230 | A stored end point reads as "none" exactly when it is `[-1, -1]`. |
| MainWindow.EndpointRoundTrip | VFLabel/gui/mainWindow.py:229-230 | A missing or in-image end point reads back as itself. |
| MainWindow.SentinelAmbiguous | VFLabel/gui/mainWindow.py:229-230 | A real point at (-1, -1) would be stored like a missing one. |
| MainWindow.EntryOf | VFLabel/gui/mainWindow.py:229-231 | Definition of one frame's record; EndpointRoundTrip and SentinelAmbiguous state what it preserves. |
| MainWindow.FrameKey | VFLabel/gui/mainWindow.py:228 | Definition of `f"Frame{i}"`; FrameKeyInjective shows distinct frames get distinct keys. |
| MainWindow.FrameKeyInjective | VFLabel/gui/mainWindow.py:228 | Distinct frames have distinct `Frame<i>` keys. |
| MainWindow.FrameKeysSnoc | VFLabel/gui/mainWindow.py:224-228 | The key of the next frame is new, and adding it gives the keys of one frame more. |
| MainWindow.FrameKeysCount | VFLabel/gui/mainWindow.py:224-228 | `n` frames give exactly `n` distinct keys. |
| MainWindow.MidlineDictionary | VFLabel/gui/mainWindow.py:222-231 | The keys are exactly `Frame0` .. `Frame<n-1>`, one per midline. Entry `i` holds midline `i`'s end points, with `[-1,-1]` for a missing one. |
| MainWindow.SegmentationFiles | VFLabel/gui/mainWindow.py:236-238 | Frame `i` is written to `{i:05d}.png`, with pairwise distinct names. |
| MainWindow.UpdateGlottisProgress | VFLabel/gui/mainWindow.py:240-250 | `progress_gl_seg` becomes `finished`; every other key and value is unchanged. |
| MainWindow.GenerateGlottisData | VFLabel/gui/mainWindow.py:206-213 | One midline per segmentation frame, in frame order. The dictionary entry of frame `i` and the file of frame `i` come from segmentation `i`; the progress flag is set. |

## Left out

- Qt plumbing is not modelled: layouts, styles, scene items, pens, cursors, message boxes, context menus, zooming and key handling. Signals appear only as ghost event logs (`events`, `updates`).
- File and video I/O is not modelled: `os.makedirs`, `pixmap.save`, `cv2.imwrite`, `json.dump`/`json.load`, file dialogs, and the missing `truncate` after `seek(0)` in `upload_existing_data`. The model keeps only the in-memory documents, records and file lists.
- `generate_segmentation_for_frame`, `glottal_midline`, `read_video`, the interpolation views and the segment slider are in files that are not part of this model. Rendering and midline detection are parameters; the slider's mark rules are not modelled.
- `VFLabel/utils/enums.py` is not part of this model. `DRAW_MODE`/`REMOVE_MODE` are taken to have exactly the values ON and OFF, so `toggle_draw_mode`'s `ValueError` branch cannot arise.
- `get_draw_mode`, `get_remove_mode` and `getPolygonPoints` are plain getters. The model reads the fields directly, and the page takes the drawing view's polygon as a parameter.
- The marker redraw labelling and marker geometry (the `pointsize / 2` offsets) are rendering. Markers are named by their point or beam.
- Aliasing: `setPolygonPoints` stores the caller's own list object. The model copies the value.
- Utils.SegmentSqDistanceBounds: states the bounds on the squared distance. The source returns its square root (`np.linalg.norm`), which is monotone, so the same bounds hold.
- Utils.ClassToColor: produces an integer image. The source builds a float image and `squeeze`s away axes of length 1, which changes the shape of 1-pixel-high or 1-pixel-wide inputs.
- Utils.Truncate: does not model `int32` overflow or NaN inputs to `astype(np.int32)`.
- Transforms.Lerp: works on exact reals rather than floats, so rounding is not modelled.
- VocalfoldSegmentation.VocalfoldSegmentationWidget.constructor: requires a saved document that decodes: canonical decimal keys, four numbers under every key, the last frame present, no key twice, at least two entries in every polygon row, and at least one polygon row. This is narrower than what the source loads. At start-up the source fails in three cases:
  - the last frame is missing, or its value does not unpack into four numbers (vocalfoldSegmentationWidget.py:210);
  - a polygon row has fewer than two entries (vocalfoldSegmentationWidget.py:366);
  - the polygon is empty. Then `self.polygon` is never assigned, because the assignment sits inside the loop (vocalfoldSegmentationWidget.py:364-368). So `add_polygon(self.polygon)` raises `AttributeError` (vocalfoldSegmentationWidget.py:212-214).

  The third case assumes that the drawing view's `getPolygonPoints` returns its point list, as `SegmentationDrawer.getPolygonPoints` does (segmentationDrawer.py:36-37), and not `None`. drawSegmentationWidget.py is not part of this model.

  The source loads keys such as `"01"` or `"abc"` and wrong-length values under other keys, and fails on them later, if at all: when sorting the keys with `int` (vocalfoldSegmentationWidget.py:302) or when unpacking that frame's value (vocalfoldSegmentationWidget.py:305). A document that Save writes meets the requirement exactly when its polygon is non-empty (DecodeEncode). Saving with no polygon drawn writes `"polygon": []` (vocalfoldSegmentationWidget.py:241-248), and the source then fails when it reopens that document.
- VocalfoldSegmentation.VocalfoldSegmentationWidget.constructor: keeps the restored polygon as decoded. The source replays it through the drawing view's `add_point`, which also drops points outside the image.
- VocalfoldSegmentation.VocalfoldSegmentationWidget.Save: `marks_list.tolist()` assumes the marks are a NumPy array. After `update_signal_current_marks_updating` stores a plain list, the source would fail there. The model stores the marks as a sequence either way.
- ManualPointClicking.ManualPointClicker.FrameForward: `change_frame` lives in a file that is not part of this model. It is taken to set `_current_frame` to the requested frame; the image redraw is not modelled.
- ManualPointClicking.ManualPointClicker.RemovePoint: the hit-test `scene().itemAt` is an input, the position of the marker under the click or none.
- MainWindow.UpdateGlottisProgress, MainWindow.MidlineDictionary: the progress record and the midline dictionary are maps. Their key order in the written JSON is not modelled; for the midlines that order is `Frame0` .. `Frame<n-1>`. Nothing reads either file by position.

## Findings

| source | as written | input that shows it | evidently intended | confidence | as-written member | corrected member |
|---|---|---|---|---|---|---|
| VFLabel/gui/vocalfoldSegmentationWidget.py:274-281 | `value != "0"` and `value != f"{n-1}"` compare the integer slider value with text, which is always true. `pop(value)` then looks up the integer in a dictionary whose keys are strings. | Slider at 0 with `"0"` a key: the guard passes (BoundaryFramesPassRemoveGuard), and `pop(0)` raises `KeyError` because the integer is never a key. No key frame is ever removed. | Remove the key `str(value)` unless it is the first or last frame. | not executed | VocalfoldSegmentation.VocalfoldSegmentationWidget.RemoveMark | VocalfoldSegmentation.VocalfoldSegmentationWidget.RemoveKeyFrame |
| VFLabel/gui_graphics_view/manualPointClicker.py:122-125 | `frame_backward` returns only when `_current_frame >= _num_frames`, so it never stops at frame 0. | Current frame 0: it steps to -1 (BackwardStepLeavesVideo), and NumPy reads `point_positions[-1]` as the last frame. | Return when the current frame is 0. | not executed | ManualPointClicking.ManualPointClicker.FrameBackward | ManualPointClicking.ManualPointClicker.FrameBackwardIntended |
