/**
 * The point-click view: a list of clicked points inside the image and the parallel list of
 * their markers on the scene.
 */
module PointClicking {
  import opened Enums
  import opened Geometry

  class PointClickWidget {
    const imageHeight: int
    const imageWidth: int
    var drawMode: Mode
    /** `_polygon_points`. */
    var points: seq<Point>
    /** `_polygon_items`: the marker of each accepted click, named by the point it is centred on. */
    var markers: seq<Point>

    /** The two lists grow and shrink together: every point has its marker, in the same order. */
    predicate Valid()
      reads this
    {
      markers == points
    }

    /** `__init__`: draw mode off, no points. */
    constructor (imageHeight: int, imageWidth: int)
      ensures Valid()
      ensures this.imageHeight == imageHeight && this.imageWidth == imageWidth
      ensures drawMode == Off && points == []
    {
      this.imageHeight := imageHeight;
      this.imageWidth := imageWidth;
      drawMode := Off;
      points := [];
      markers := [];
    }

    /** `toggle_draw_mode`. */
    method ToggleDrawMode()
      modifies this`drawMode
      ensures drawMode == old(drawMode).Toggled()
    {
      drawMode := drawMode.Toggled();
    }

    /** `DRAW_MODE_on`: the mode is ON whatever it was. */
    method DrawModeOn()
      modifies this`drawMode
      ensures drawMode == On
    {
      drawMode := On;
    }

    /** `DRAW_MODE_off`: the mode is OFF whatever it was. */
    method DrawModeOff()
      modifies this`drawMode
      ensures drawMode == Off
    {
      drawMode := Off;
    }

    /** `add_point`: a point inside the image is appended last, together with its marker. */
    method AddPoint(p: Point) returns (accepted: bool)
      requires Valid()
      modifies this`points, this`markers
      ensures Valid()
      ensures accepted <==> InImage(p, imageWidth, imageHeight)
      ensures points == if accepted then old(points) + [p] else old(points)
    {
      if p.x < 0.0 || p.x >= imageWidth as real {
        return false;
      }
      if p.y < 0.0 || p.y >= imageHeight as real {
        return false;
      }
      points := points + [p];
      markers := markers + [p];
      accepted := true;
    }

    /** `remove_last_point`: drops the last point and its marker; nothing happens on an empty list. */
    method RemoveLastPoint() returns (removed: bool)
      requires Valid()
      modifies this`points, this`markers
      ensures Valid()
      ensures removed <==> old(points) != []
      ensures points == if removed then old(points)[..|old(points)| - 1] else old(points)
    {
      if |points| == 0 {
        return false;
      }
      points := points[..|points| - 1];
      markers := markers[..|markers| - 1];
      removed := true;
    }

    /** `mousePressEvent`: a click at scene position `p` adds a point only while draw mode is ON. */
    method MousePressed(p: Point) returns (accepted: bool)
      requires Valid()
      modifies this`points, this`markers
      ensures Valid()
      ensures accepted <==> drawMode == On && InImage(p, imageWidth, imageHeight)
      ensures points == if accepted then old(points) + [p] else old(points)
    {
      accepted := false;
      if drawMode == On {
        accepted := AddPoint(p);
      }
    }

    /** Adding a point inside the image and removing the last point again restores the point list. */
    method AddThenRemove(p: Point) returns (removed: bool)
      requires Valid() && InImage(p, imageWidth, imageHeight)
      modifies this`points, this`markers
      ensures Valid()
      ensures removed && points == old(points)
    {
      var accepted := AddPoint(p);
      ghost var added := points;
      removed := RemoveLastPoint();
      assert added[..|added| - 1] == old(points);
    }
  }
}
