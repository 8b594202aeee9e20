/**
 * The sparse laser-point grid of the manual point clicker: for every frame and every laser
 * beam `(row, col)` of the grid, the clicked image position or NaN, plus the marker list,
 * the selected laser beam, the draw/remove modes and the current frame.
 */
module ManualPointClicking {
  import opened Wrappers
  import opened Enums
  import opened Geometry

  /** One float of the grid: NaN, or a number. */
  datatype Coord = NaN | Num(value: real)

  /** The two floats `[x, y]` stored for one frame and laser beam. */
  datatype Slot = Slot(x: Coord, y: Coord) {
    /** `~np.isnan(slot).any()`. */
    predicate IsSet() { x.Num? && y.Num? }
    predicate FullOrEmpty() { x.Num? == y.Num? }
  }

  const Unset := Slot(NaN, NaN)

  /** A marker on the scene, labelled with the laser beam `(x_id, y_id)` it belongs to. */
  datatype Marker = Marker(xId: int, yId: int)

  /** What a click in draw mode did. */
  datatype AddOutcome =
    | NoLaserIndex          // no beam selected: a warning box, nothing stored
    | OutsideImage          // the click is outside the image
    | IndexError            // the frame or the beam is out of the array's range
    | Stored(frame: nat, created: bool)  // the slot of `frame` was written; `created`: a new marker, `point_added` emitted

  /** NumPy's reading of index `i` on an axis of length `n`: negative indices count from the end. */
  function NumpyIndex(i: int, n: nat): (r: Option<nat>)
    ensures r.Some? <==> -(n as int) <= i < n
    ensures r.Some? ==> r.value < n && (r.value == i || r.value == i + n)
  {
    if 0 <= i < n then Some(i) else if -(n as int) <= i < 0 then Some(i + n) else None
  }

  /** `frame_forward`: the frame it moves to, or `None` when it returns at the last frame. */
  function ForwardStep(current: int, numFrames: nat): (r: Option<int>)
    ensures r.Some? <==> current != numFrames - 1
    ensures r.Some? ==> r.value == current + 1
  {
    if current == numFrames - 1 then None else Some(current + 1)
  }

  /** `frame_backward` as written: the guard `current >= num_frames` never stops the step below frame 0. */
  function BackwardStep(current: int, numFrames: nat): (r: Option<int>)
    ensures r.Some? <==> current < numFrames
    ensures r.Some? ==> r.value == current - 1
  {
    if current >= numFrames then None else Some(current - 1)
  }

  /** `frame_backward` as evidently intended: it returns at frame 0. */
  function IntendedBackwardStep(current: int): (r: Option<int>)
    ensures r.Some? <==> current > 0
    ensures r.Some? ==> r.value == current - 1
  {
    if current <= 0 then None else Some(current - 1)
  }

  /** Stepping forward from a frame of the video never leaves it. */
  lemma ForwardStaysInVideo(current: int, numFrames: nat)
    requires 0 <= current < numFrames
    ensures ForwardStep(current, numFrames).Some? ==> 0 <= ForwardStep(current, numFrames).value < numFrames
  {
  }

  /** As written, stepping back from frame 0 goes to frame -1, which NumPy reads as the last frame. */
  lemma BackwardStepLeavesVideo(numFrames: nat)
    requires numFrames >= 1
    ensures BackwardStep(0, numFrames) == Some(-1)
    ensures NumpyIndex(-1, numFrames) == Some(numFrames - 1)
  {
  }

  /** The intended step back stays on the video's frames. */
  lemma IntendedBackwardStaysInVideo(current: int, numFrames: nat)
    requires 0 <= current < numFrames
    ensures IntendedBackwardStep(current).Some? ==> 0 <= IntendedBackwardStep(current).value < numFrames
    ensures current == 0 ==> IntendedBackwardStep(current) == None
  {
  }

  /** `(f, r, c) < (f', r', c')` in row-major order, the order `np.argwhere` lists indices in. */
  predicate LexLess(a: (nat, nat, nat), b: (nat, nat, nat)) {
    a.0 < b.0 || (a.0 == b.0 && (a.1 < b.1 || (a.1 == b.1 && a.2 < b.2)))
  }

  predicate LexAscending(s: seq<(nat, nat, nat)>) {
    forall i, j :: 0 <= i < j < |s| ==> LexLess(s[i], s[j])
  }

  class ManualPointClicker {
    const numFrames: nat
    const gridHeight: nat
    const gridWidth: nat
    const imageWidth: int
    const imageHeight: int
    /** `point_positions[frame, row, col]`, the two floats `[x, y]` of a slot. */
    const positions: array3<Slot>
    var items: seq<Marker>
    /** `(x_index, y_index)`, or `None` while no beam is selected. */
    var laserIndex: Option<(int, int)>
    /** `_current_frame`; `change_frame` is taken to set it to the requested frame. */
    var currentFrame: int
    var drawMode: Mode
    var removeMode: Mode

    ghost predicate Valid()
      reads this
    {
      positions.Length0 == numFrames && positions.Length1 == gridHeight && positions.Length2 == gridWidth &&
      numFrames >= 1 && currentFrame < numFrames &&
      (forall i, j :: 0 <= i < j < |items| ==> items[i] != items[j]) &&
      (forall m :: m in items ==> NumpyIndex(m.yId, gridHeight).Some? && NumpyIndex(m.xId, gridWidth).Some?)
    }

    /** Every slot holds both coordinates or neither. */
    ghost predicate SlotsFullOrEmpty()
      reads this, positions
    {
      forall f, r, c :: 0 <= f < positions.Length0 && 0 <= r < positions.Length1 && 0 <= c < positions.Length2 ==>
        positions[f, r, c].FullOrEmpty()
    }

    /** `__init__`: every slot of the `num_frames x grid_height x grid_width` grid is NaN, both modes are off. */
    constructor (numFrames: nat, gridWidth: nat, gridHeight: nat, imageWidth: int, imageHeight: int)
      requires numFrames >= 1
      ensures Valid() && SlotsFullOrEmpty() && fresh(positions)
      ensures this.numFrames == numFrames && this.gridWidth == gridWidth && this.gridHeight == gridHeight
      ensures this.imageWidth == imageWidth && this.imageHeight == imageHeight
      ensures forall f, r, c :: 0 <= f < numFrames && 0 <= r < gridHeight && 0 <= c < gridWidth ==>
        positions[f, r, c] == Unset
      ensures items == [] && laserIndex == None && currentFrame == 0
      ensures drawMode == Off && removeMode == Off
    {
      this.numFrames := numFrames;
      this.gridWidth := gridWidth;
      this.gridHeight := gridHeight;
      this.imageWidth := imageWidth;
      this.imageHeight := imageHeight;
      positions := new Slot[numFrames, gridHeight, gridWidth]((_, _, _) => Unset);
      items := [];
      laserIndex := None;
      currentFrame := 0;
      drawMode := Off;
      removeMode := Off;
    }

    /** `frame_forward`: `moved` is whether the frame changed and `signal_increment_frame` was emitted. */
    method FrameForward() returns (moved: bool)
      requires Valid()
      modifies this`currentFrame
      ensures Valid()
      ensures moved <==> ForwardStep(old(currentFrame), numFrames).Some?
      ensures currentFrame == if moved then old(currentFrame) + 1 else old(currentFrame)
    {
      var step := ForwardStep(currentFrame, numFrames);
      moved := step.Some?;
      if moved {
        currentFrame := step.value;
      }
    }

    /** `frame_backward` as written: from frame 0 it moves to frame -1. */
    method FrameBackward() returns (moved: bool)
      requires Valid()
      modifies this`currentFrame
      ensures Valid()
      ensures moved && currentFrame == old(currentFrame) - 1
    {
      var step := BackwardStep(currentFrame, numFrames);
      moved := step.Some?;
      if moved {
        currentFrame := step.value;
      }
    }

    /** `frame_backward` as intended: it stops at frame 0. */
    method FrameBackwardIntended() returns (moved: bool)
      requires Valid() && 0 <= currentFrame
      modifies this`currentFrame
      ensures Valid() && 0 <= currentFrame
      ensures moved <==> old(currentFrame) > 0
      ensures currentFrame == if moved then old(currentFrame) - 1 else old(currentFrame)
    {
      var step := IntendedBackwardStep(currentFrame);
      moved := step.Some?;
      if moved {
        currentFrame := step.value;
      }
    }

    /** `toggle_remove_mode`: draw mode off, remove mode flipped. */
    method ToggleRemoveMode()
      modifies this`drawMode, this`removeMode
      ensures drawMode == Off && removeMode == old(removeMode).Toggled()
    {
      drawMode := Off;
      removeMode := removeMode.Toggled();
    }

    /** `toggle_draw_mode`: remove mode off, draw mode flipped. */
    method ToggleDrawMode()
      modifies this`drawMode, this`removeMode
      ensures removeMode == Off && drawMode == old(drawMode).Toggled()
    {
      removeMode := Off;
      drawMode := drawMode.Toggled();
    }

    method DrawModeOn()
      modifies this`drawMode
      ensures drawMode == On
    {
      drawMode := On;
    }

    method DrawModeOff()
      modifies this`drawMode
      ensures drawMode == Off
    {
      drawMode := Off;
    }

    method RemoveModeOn()
      modifies this`removeMode
      ensures removeMode == On
    {
      removeMode := On;
    }

    method RemoveModeOff()
      modifies this`removeMode
      ensures removeMode == Off
    {
      removeMode := Off;
    }

    /** `set_laser_index(x, y)`: selects the beam later clicks are stored for. */
    method SetLaserIndex(x: int, y: int)
      modifies this`laserIndex
      ensures laserIndex == Some((x, y))
    {
      laserIndex := Some((x, y));
    }

    /** Whether a marker for the beam exists: the scan over `_point_items`. */
    method HasMarker(m: Marker) returns (found: bool)
      ensures found <==> m in items
    {
      found := false;
      var i := 0;
      while i < |items|
        invariant 0 <= i <= |items|
        invariant !found && forall k :: 0 <= k < i ==> items[k] != m
      {
        if items[i] == m {
          return true;
        }
        i := i + 1;
      }
    }

    /**
     * `add_point`: with a beam selected and the click inside the image, stores `[x, y]` in exactly
     * the slot of the current frame and the beam, and adds a marker unless the beam has one.
     */
    method AddPoint(p: Point) returns (outcome: AddOutcome)
      requires Valid()
      modifies positions, this`items
      ensures Valid()
      ensures old(SlotsFullOrEmpty()) ==> SlotsFullOrEmpty()
      ensures laserIndex.None? ==> outcome == NoLaserIndex
      ensures laserIndex.Some? && !InImage(p, imageWidth, imageHeight) ==> outcome == OutsideImage
      ensures outcome.Stored? ==> laserIndex.Some? && InImage(p, imageWidth, imageHeight)
      ensures
        (laserIndex.Some? && InImage(p, imageWidth, imageHeight) &&
         NumpyIndex(currentFrame, numFrames).Some? &&
         NumpyIndex(laserIndex.value.1, gridHeight).Some? && NumpyIndex(laserIndex.value.0, gridWidth).Some?)
        ==> outcome.Stored?
      ensures laserIndex.Some? && InImage(p, imageWidth, imageHeight) ==> outcome.Stored? || outcome == IndexError
      ensures outcome == IndexError ==>
        NumpyIndex(currentFrame, numFrames).None? ||
        NumpyIndex(laserIndex.value.1, gridHeight).None? || NumpyIndex(laserIndex.value.0, gridWidth).None?
      ensures !outcome.Stored? ==> items == old(items) && unchanged(positions)
      ensures outcome.Stored? ==>
        NumpyIndex(laserIndex.value.1, gridHeight).Some? && NumpyIndex(laserIndex.value.0, gridWidth).Some?
      ensures outcome.Stored? ==>
        var (x, y) := laserIndex.value;
        var r, c := NumpyIndex(y, gridHeight).value, NumpyIndex(x, gridWidth).value;
        NumpyIndex(currentFrame, numFrames) == Some(outcome.frame) &&
        positions[outcome.frame, r, c] == Slot(Num(p.x), Num(p.y)) &&
        (forall f, r', c' ::
          (0 <= f < numFrames && 0 <= r' < gridHeight && 0 <= c' < gridWidth && (f, r', c') != (outcome.frame, r, c)) ==>
          positions[f, r', c'] == old(positions[f, r', c'])) &&
        (outcome.created <==> Marker(x, y) !in old(items)) &&
        items == if outcome.created then old(items) + [Marker(x, y)] else old(items)
    {
      if laserIndex.None? {
        return NoLaserIndex;
      }
      if p.x < 0.0 || p.x >= imageWidth as real {
        return OutsideImage;
      }
      if p.y < 0.0 || p.y >= imageHeight as real {
        return OutsideImage;
      }
      var (x, y) := laserIndex.value;
      var f, r, c := NumpyIndex(currentFrame, numFrames), NumpyIndex(y, gridHeight), NumpyIndex(x, gridWidth);
      if f.None? || r.None? || c.None? {
        return IndexError;
      }
      positions[f.value, r.value, c.value] := Slot(Num(p.x), Num(p.y));
      var m := Marker(x, y);
      var found := HasMarker(m);
      if found {
        return Stored(f.value, false);
      }
      items := items + [m];
      outcome := Stored(f.value, true);
    }

    /**
     * `remove_point`: `hit` is the position in `_point_items` of the item under the click, or `None`
     * when the click is on no marker. A hit removes that marker and clears its beam in every frame;
     * `removed` is the beam `point_removed` reports.
     */
    method RemovePoint(hit: Option<nat>) returns (removed: Option<Marker>)
      requires Valid()
      modifies positions, this`items
      ensures Valid()
      ensures old(SlotsFullOrEmpty()) ==> SlotsFullOrEmpty()
      ensures removed.Some? <==> hit.Some? && hit.value < |old(items)|
      ensures removed.None? ==> items == old(items) && unchanged(positions)
      ensures removed.Some? ==>
        removed.value == old(items)[hit.value] &&
        items == old(items)[..hit.value] + old(items)[hit.value + 1..] &&
        var r, c := NumpyIndex(removed.value.yId, gridHeight).value, NumpyIndex(removed.value.xId, gridWidth).value;
        forall f, r', c' :: 0 <= f < numFrames && 0 <= r' < gridHeight && 0 <= c' < gridWidth ==>
          positions[f, r', c'] == if (r', c') == (r, c) then Unset else old(positions[f, r', c'])
    {
      if hit.None? || hit.value >= |items| {
        return None;
      }
      var k := hit.value;
      var m := items[k];
      assert m in items;
      items := items[..k] + items[k + 1..];
      var r, c := NumpyIndex(m.yId, gridHeight).value, NumpyIndex(m.xId, gridWidth).value;
      ClearBeam(r, c);
      removed := Some(m);
    }

    /** `point_positions[:, row, col] = np.nan`. */
    method ClearBeam(r: nat, c: nat)
      requires positions.Length0 == numFrames && r < positions.Length1 && c < positions.Length2
      modifies positions
      ensures forall f, r', c' :: 0 <= f < positions.Length0 && 0 <= r' < positions.Length1 && 0 <= c' < positions.Length2 ==>
        positions[f, r', c'] == if (r', c') == (r, c) then Unset else old(positions[f, r', c'])
    {
      var f := 0;
      while f < numFrames
        invariant 0 <= f <= numFrames
        invariant forall f', r', c' :: 0 <= f' < positions.Length0 && 0 <= r' < positions.Length1 && 0 <= c' < positions.Length2 ==>
          positions[f', r', c'] == if (r', c') == (r, c) && f' < f then Unset else old(positions[f', r', c'])
      {
        positions[f, r, c] := Unset;
        f := f + 1;
      }
    }

    /** The indices `np.argwhere` lists, from the cursor `(f, r, c)` on in row-major order. */
    function ScanFrom(f: nat, r: nat, c: nat): (s: seq<(nat, nat, nat)>)
      reads positions
      requires f <= positions.Length0 && r <= positions.Length1 && c <= positions.Length2
      ensures forall i :: 0 <= i < |s| ==>
        s[i].0 < positions.Length0 && s[i].1 < positions.Length1 && s[i].2 < positions.Length2 &&
        positions[s[i].0, s[i].1, s[i].2].IsSet() && !LexLess(s[i], (f, r, c))
      decreases positions.Length0 - f, positions.Length1 - r, positions.Length2 - c
    {
      if f == positions.Length0 then []
      else if r == positions.Length1 then ScanFrom(f + 1, 0, 0)
      else if c == positions.Length2 then ScanFrom(f, r + 1, 0)
      else
        var rest := ScanFrom(f, r, c + 1);
        if positions[f, r, c].IsSet() then [(f, r, c)] + rest else rest
    }

    /** The scan from a cursor lists every set slot at or after the cursor. */
    lemma {:induction false} ScanFromComplete(f: nat, r: nat, c: nat)
      requires f <= positions.Length0 && r <= positions.Length1 && c <= positions.Length2
      ensures forall f', r', c' ::
        (0 <= f' < positions.Length0 && 0 <= r' < positions.Length1 && 0 <= c' < positions.Length2 &&
         positions[f', r', c'].IsSet() && !LexLess((f', r', c'), (f, r, c))) ==>
        (f', r', c') in ScanFrom(f, r, c)
      decreases positions.Length0 - f, positions.Length1 - r, positions.Length2 - c
    {
      if f == positions.Length0 {
      } else if r == positions.Length1 {
        ScanFromComplete(f + 1, 0, 0);
      } else if c == positions.Length2 {
        ScanFromComplete(f, r + 1, 0);
      } else {
        ScanFromComplete(f, r, c + 1);
      }
    }

    /** The scan lists the slots in strictly increasing row-major order. */
    lemma {:induction false} ScanFromAscending(f: nat, r: nat, c: nat)
      requires f <= positions.Length0 && r <= positions.Length1 && c <= positions.Length2
      ensures LexAscending(ScanFrom(f, r, c))
      decreases positions.Length0 - f, positions.Length1 - r, positions.Length2 - c
    {
      if f == positions.Length0 {
      } else if r == positions.Length1 {
        ScanFromAscending(f + 1, 0, 0);
      } else if c == positions.Length2 {
        ScanFromAscending(f, r + 1, 0);
      } else {
        ScanFromAscending(f, r, c + 1);
      }
    }

    /** `get_point_indices`: every `(frame, row, col)` whose slot is set, each once, in row-major order. */
    function GetPointIndices(): (s: seq<(nat, nat, nat)>)
      reads positions
      ensures LexAscending(s)
      ensures forall f, r, c :: (f, r, c) in s <==>
        0 <= f < positions.Length0 && 0 <= r < positions.Length1 && 0 <= c < positions.Length2 && positions[f, r, c].IsSet()
    {
      ScanFromComplete(0, 0, 0);
      ScanFromAscending(0, 0, 0);
      ScanFrom(0, 0, 0)
    }
  }
}
