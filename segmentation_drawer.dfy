/**
 * The polygon editor of the segmentation view: a list of clicked points, a parallel list of
 * point markers on the scene, and the polygon item drawn through the points once there are
 * more than two of them.
 */
module SegmentationDrawing {
  import opened Wrappers
  import opened Enums
  import opened Geometry

  /** What `remove_last_point` did. */
  datatype RemoveOutcome =
    | NothingToRemove   // the point list is empty: the call returns at once
    | Popped            // the last point and the last marker were removed
    | MarkerPopFailed   // the last point was removed, then popping the empty marker list raised `IndexError`

  class SegmentationDrawer {
    const imageHeight: int
    const imageWidth: int
    var drawMode: Mode
    /** `_polygon_points`. */
    var points: seq<Point>
    /** `_polygon_items`: the marker of each accepted click, named by the point it is centred on. */
    var markers: seq<Point>
    /** `_polygon_pointer`: the points of the polygon item last added to the scene; never reset to `None`. */
    var polygon: Option<seq<Point>>
    /** Whether the item `polygon` names is still in the scene. */
    var polygonShown: bool
    /** How often `segmentation_updated` was emitted. */
    ghost var updates: nat

    ghost predicate Valid()
      reads this
    {
      polygonShown ==> polygon.Some?
    }

    /** Every point has its marker, in the same order. */
    predicate Lockstep()
      reads this
    {
      markers == points
    }

    /** `__init__`: draw mode off, no points, no polygon. */
    constructor (imageHeight: int, imageWidth: int)
      ensures Valid() && Lockstep()
      ensures this.imageHeight == imageHeight && this.imageWidth == imageWidth
      ensures drawMode == Off && points == [] && markers == []
      ensures polygon == None && !polygonShown && updates == 0
    {
      this.imageHeight := imageHeight;
      this.imageWidth := imageWidth;
      drawMode := Off;
      points := [];
      markers := [];
      polygon := None;
      polygonShown := false;
      updates := 0;
    }

    /** `add_polygon`: replaces the polygon item by one through `q` and emits `segmentation_updated`. */
    method AddPolygon(q: seq<Point>)
      modifies this`polygon, this`polygonShown, this`updates
      ensures Valid()
      ensures polygon == Some(q) && polygonShown && updates == old(updates) + 1
    {
      polygon := Some(q);
      polygonShown := true;
      updates := updates + 1;
    }

    /**
     * `remove_polygon`: takes the last polygon item off the scene and emits `segmentation_updated`,
     * if there ever was one; the pointer itself is kept.
     */
    method RemovePolygon()
      requires Valid()
      modifies this`polygonShown, this`updates
      ensures Valid()
      ensures !polygonShown
      ensures updates == old(updates) + if polygon.Some? then 1 else 0
    {
      if polygon.Some? {
        polygonShown := false;
        updates := updates + 1;
      }
    }

    /** `setPolygonPoints`: the point list is replaced wholesale and drawn; the markers stay as they are. */
    method SetPolygonPoints(q: seq<Point>)
      modifies this`points, this`polygon, this`polygonShown, this`updates
      ensures Valid()
      ensures points == q && markers == old(markers)
      ensures polygon == Some(q) && polygonShown && updates == old(updates) + 1
    {
      points := q;
      AddPolygon(q);
    }

    /** `toggle_draw_mode`. */
    method ToggleDrawMode()
      modifies this`drawMode
      ensures drawMode == old(drawMode).Toggled()
    {
      drawMode := drawMode.Toggled();
    }

    /** `draw_mode_on`: the mode is ON whatever it was. */
    method DrawModeOn()
      modifies this`drawMode
      ensures drawMode == On
    {
      drawMode := On;
    }

    /** `draw_mode_off`: the mode is OFF whatever it was. */
    method DrawModeOff()
      modifies this`drawMode
      ensures drawMode == Off
    {
      drawMode := Off;
    }

    /**
     * `add_point`: a point inside the image is appended to the points and gets a marker; once
     * there are more than two points the polygon is redrawn through all of them.
     */
    method AddPoint(p: Point) returns (accepted: bool)
      requires Valid()
      modifies this`points, this`markers, this`polygon, this`polygonShown, this`updates
      ensures Valid()
      ensures accepted <==> InImage(p, imageWidth, imageHeight)
      ensures !accepted ==>
        points == old(points) && markers == old(markers) &&
        polygon == old(polygon) && polygonShown == old(polygonShown) && updates == old(updates)
      ensures accepted ==> points == old(points) + [p] && markers == old(markers) + [p]
      ensures accepted && |points| > 2 ==> polygon == Some(points) && polygonShown && updates == old(updates) + 1
      ensures accepted && |points| <= 2 ==>
        polygon == old(polygon) && polygonShown == old(polygonShown) && updates == old(updates)
      ensures old(Lockstep()) ==> Lockstep()
    {
      if p.x < 0.0 || p.x >= imageWidth as real {
        return false;
      }
      if p.y < 0.0 || p.y >= imageHeight as real {
        return false;
      }
      points := points + [p];
      markers := markers + [p];
      if |points| > 2 {
        AddPolygon(points);
      }
      accepted := true;
    }

    /**
     * `remove_last_point`: drops the last point and its marker, then redraws the polygon if more
     * than two points remain and takes it off the scene otherwise.
     */
    method RemoveLastPoint() returns (outcome: RemoveOutcome)
      requires Valid()
      modifies this`points, this`markers, this`polygon, this`polygonShown, this`updates
      ensures Valid()
      ensures outcome == NothingToRemove <==> old(points) == []
      ensures outcome == MarkerPopFailed <==> old(points) != [] && old(markers) == []
      ensures outcome == NothingToRemove ==>
        points == old(points) && markers == old(markers) &&
        polygon == old(polygon) && polygonShown == old(polygonShown) && updates == old(updates)
      ensures outcome != NothingToRemove ==> points == old(points)[..|old(points)| - 1]
      ensures outcome == MarkerPopFailed ==>
        markers == old(markers) &&
        polygon == old(polygon) && polygonShown == old(polygonShown) && updates == old(updates)
      ensures outcome == Popped ==> markers == old(markers)[..|old(markers)| - 1]
      ensures outcome == Popped && |points| > 2 ==> polygon == Some(points) && polygonShown && updates == old(updates) + 1
      ensures outcome == Popped && |points| <= 2 ==>
        polygon == old(polygon) && !polygonShown && updates == old(updates) + if polygon.Some? then 1 else 0
      ensures old(Lockstep()) ==> Lockstep() && outcome != MarkerPopFailed
    {
      if |points| == 0 {
        return NothingToRemove;
      }
      points := points[..|points| - 1];
      if |markers| == 0 {
        return MarkerPopFailed;
      }
      markers := markers[..|markers| - 1];
      if |points| > 2 {
        AddPolygon(points);
      } else {
        RemovePolygon();
      }
      outcome := Popped;
    }

    /** `mousePressEvent`: a click at scene position `p` adds a point only while draw mode is ON. */
    method MousePressed(p: Point) returns (accepted: bool)
      requires Valid()
      modifies this`points, this`markers, this`polygon, this`polygonShown, this`updates
      ensures Valid()
      ensures accepted <==> drawMode == On && InImage(p, imageWidth, imageHeight)
      ensures !accepted ==>
        points == old(points) && markers == old(markers) &&
        polygon == old(polygon) && polygonShown == old(polygonShown) && updates == old(updates)
      ensures accepted ==> points == old(points) + [p] && markers == old(markers) + [p]
      ensures accepted && |points| > 2 ==> polygon == Some(points) && polygonShown && updates == old(updates) + 1
      ensures accepted && |points| <= 2 ==>
        polygon == old(polygon) && polygonShown == old(polygonShown) && updates == old(updates)
      ensures old(Lockstep()) ==> Lockstep()
    {
      accepted := false;
      if drawMode == On {
        accepted := AddPoint(p);
      }
    }

    /** Adding a point inside the image and removing the last point again restores both lists. */
    method AddThenRemove(p: Point) returns (outcome: RemoveOutcome)
      requires Valid() && InImage(p, imageWidth, imageHeight)
      modifies this`points, this`markers, this`polygon, this`polygonShown, this`updates
      ensures Valid()
      ensures outcome == Popped
      ensures points == old(points) && markers == old(markers)
    {
      var accepted := AddPoint(p);
      ghost var added := points;
      outcome := RemoveLastPoint();
      assert added[..|added| - 1] == old(points);
    }
  }
}
