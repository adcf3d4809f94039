/**
 The camera of the embedded renderer: the world/screen transform, wheel zoom
 towards the cursor, and drag panning. All arithmetic is exact (`real`).
 */
module View {

  /** The zoom factor is always positive. */
  type Zoom = z: real | z > 0.0 witness 1.0

  datatype Point = Point(x: real, y: real)

  /** Camera centre in world coordinates, and zoom (screen pixels per world unit). */
  datatype Camera = Camera(camX: real, camY: real, zoom: Zoom)

  /** Size of the drawing surface in pixels. */
  datatype Canvas = Canvas(width: nat, height: nat)

  const WheelMinZoom: real := 0.1
  const WheelMaxZoom: real := 20.0
  const ZoomOutFactor: real := 0.9
  const ZoomInFactor: real := 1.1

  function Min(a: real, b: real): real
  {
    if a <= b then a else b
  }

  function Max(a: real, b: real): real
  {
    if a >= b then a else b
  }

  /** `Math.max(lo, Math.min(v, hi))`. */
  function Clamp(lo: real, hi: real, v: real): (r: real)
    requires lo <= hi
    ensures lo <= r <= hi
    ensures lo <= v <= hi ==> r == v
    ensures v < lo ==> r == lo
    ensures v > hi ==> r == hi
  {
    Max(lo, Min(v, hi))
  }

  function CenterX(cv: Canvas): real
  {
    cv.width as real / 2.0
  }

  function CenterY(cv: Canvas): real
  {
    cv.height as real / 2.0
  }

  /** `worldToScreen`: offset from the camera, scaled, then moved to the
      canvas centre. */
  function WorldToScreen(cam: Camera, cv: Canvas, p: Point): (r: Point)
    ensures p == Point(cam.camX, cam.camY) ==> r == Point(CenterX(cv), CenterY(cv))
    ensures p.x < cam.camX <==> r.x < CenterX(cv)
    ensures p.y < cam.camY <==> r.y < CenterY(cv)
  {
    ScaleSign(p.x - cam.camX, cam.zoom);
    ScaleSign(p.y - cam.camY, cam.zoom);
    Point((p.x - cam.camX) * cam.zoom + CenterX(cv), (p.y - cam.camY) * cam.zoom + CenterY(cv))
  }

  /** Scaling by a positive zoom keeps the sign. */
  lemma ScaleSign(d: real, z: Zoom)
    ensures d < 0.0 <==> d * z < 0.0
    ensures d == 0.0 <==> d * z == 0.0
  {
    if d == 0.0 {
      assert d * z == 0.0 * z;
    } else if d < 0.0 {
      assert d * z == -((-d) * z);
    } else {
      assert d * z >= 0.0;
    }
  }

  /** `screenToWorld`, the exact inverse of `worldToScreen`. */
  function ScreenToWorld(cam: Camera, cv: Canvas, s: Point): (w: Point)
    ensures WorldToScreen(cam, cv, w) == s
  {
    Point((s.x - CenterX(cv)) / cam.zoom + cam.camX, (s.y - CenterY(cv)) / cam.zoom + cam.camY)
  }

  /** Mapping a world point to the screen and back returns it unchanged. */
  lemma WorldToScreenInverse(cam: Camera, cv: Canvas, p: Point)
    ensures ScreenToWorld(cam, cv, WorldToScreen(cam, cv, p)) == p
  {
    var s := WorldToScreen(cam, cv, p);
    assert (s.x - CenterX(cv)) / cam.zoom == p.x - cam.camX;
    assert (s.y - CenterY(cv)) / cam.zoom == p.y - cam.camY;
  }

  /** The wheel handler: zoom out by 0.9 when `deltaY > 0`, in by 1.1
      otherwise, clamp to [0.1, 20], and move the camera so that the world
      point under the cursor stays under it. */
  function Wheel(cam: Camera, cv: Canvas, cursor: Point, deltaY: real): (r: Camera)
    ensures WheelMinZoom <= r.zoom <= WheelMaxZoom
    ensures WorldToScreen(r, cv, ScreenToWorld(cam, cv, cursor)) == cursor
    ensures var want := cam.zoom * (if deltaY > 0.0 then ZoomOutFactor else ZoomInFactor);
            WheelMinZoom <= want <= WheelMaxZoom ==> r.zoom == want
    ensures var want := cam.zoom * (if deltaY > 0.0 then ZoomOutFactor else ZoomInFactor);
            (want < WheelMinZoom ==> r.zoom == WheelMinZoom) && (want > WheelMaxZoom ==> r.zoom == WheelMaxZoom)
    ensures WheelMinZoom <= cam.zoom <= WheelMaxZoom ==>
              (deltaY > 0.0 ==> r.zoom <= cam.zoom) && (deltaY <= 0.0 ==> r.zoom >= cam.zoom)
  {
    var factor := if deltaY > 0.0 then ZoomOutFactor else ZoomInFactor;
    var w := ScreenToWorld(cam, cv, cursor);
    var z: Zoom := Clamp(WheelMinZoom, WheelMaxZoom, cam.zoom * factor);
    ZoomAbout(cv, cursor, w, z);
    Camera(w.x - (cursor.x - CenterX(cv)) / z, w.y - (cursor.y - CenterY(cv)) / z, z)
  }

  /** Placing the camera this way puts world point `w` under `cursor` at any zoom. */
  lemma ZoomAbout(cv: Canvas, cursor: Point, w: Point, z: Zoom)
    ensures var r := Camera(w.x - (cursor.x - CenterX(cv)) / z, w.y - (cursor.y - CenterY(cv)) / z, z);
            WorldToScreen(r, cv, w) == cursor
  {
    var r := Camera(w.x - (cursor.x - CenterX(cv)) / z, w.y - (cursor.y - CenterY(cv)) / z, z);
    assert (w.x - r.camX) * z == cursor.x - CenterX(cv);
    assert (w.y - r.camY) * z == cursor.y - CenterY(cv);
  }

  /** What a mouse-down records: the pointer position and the camera centre. */
  datatype DragAnchor = DragAnchor(start: Point, camX: real, camY: real)

  /** The drag branch of the mouse-move handler: the camera moves against the
      pointer's displacement since the mouse-down, scaled by the zoom. */
  function Pan(anchor: DragAnchor, cam: Camera, cursor: Point): (r: Camera)
    ensures r.zoom == cam.zoom
    ensures cursor == anchor.start ==> r.camX == anchor.camX && r.camY == anchor.camY
    ensures cursor.x > anchor.start.x <==> r.camX < anchor.camX
    ensures cursor.y > anchor.start.y <==> r.camY < anchor.camY
  {
    PositiveQuotient(cursor.x - anchor.start.x, cam.zoom);
    PositiveQuotient(cursor.y - anchor.start.y, cam.zoom);
    Camera(anchor.camX - (cursor.x - anchor.start.x) / cam.zoom,
           anchor.camY - (cursor.y - anchor.start.y) / cam.zoom,
           cam.zoom)
  }

  /** Dividing by a positive zoom keeps the sign. */
  lemma PositiveQuotient(d: real, z: Zoom)
    ensures d > 0.0 <==> d / z > 0.0
  {
    assert (d / z) * z == d;
    ScaleSign(d / z, z);
    if d > 0.0 {
      assert d / z * z > 0.0;
    }
  }

  /** Dragging moves the scene with the pointer: the world point that was
      under the pointer at the mouse-down, taken at the current zoom, is under
      the pointer again. This is the grabbed point only while the zoom is
      unchanged since the mouse-down (see `GrabbedPointNeedsSameZoom`). */
  lemma PanKeepsGrabbedPoint(anchor: DragAnchor, cam: Camera, cv: Canvas, cursor: Point)
    ensures var grabbed := ScreenToWorld(Camera(anchor.camX, anchor.camY, cam.zoom), cv, anchor.start);
            WorldToScreen(Pan(anchor, cam, cursor), cv, grabbed) == cursor
  {
    var z := cam.zoom;
    var grabbed := ScreenToWorld(Camera(anchor.camX, anchor.camY, z), cv, anchor.start);
    var r := Pan(anchor, cam, cursor);
    assert grabbed.x - r.camX == (anchor.start.x - CenterX(cv)) / z + (cursor.x - anchor.start.x) / z;
    assert (grabbed.x - r.camX) * z == cursor.x - CenterX(cv);
    assert grabbed.y - r.camY == (anchor.start.y - CenterY(cv)) / z + (cursor.y - anchor.start.y) / z;
    assert (grabbed.y - r.camY) * z == cursor.y - CenterY(cv);
  }

  /** The drag branch pans with the zoom current at the move, not the zoom
      at the mouse-down. With the pointer back at the drag start, the point
      grabbed at the mouse-down is under it exactly when the zoom has not
      changed since, or when the grab was at the canvas centre. */
  lemma GrabbedPointNeedsSameZoom(down: Camera, cam: Camera, cv: Canvas, start: Point)
    ensures var anchor := DragAnchor(start, down.camX, down.camY);
            var grabbed := ScreenToWorld(down, cv, start);
            var back := WorldToScreen(Pan(anchor, cam, start), cv, grabbed);
            back == start <==> cam.zoom == down.zoom || start == Point(CenterX(cv), CenterY(cv))
  {
    var grabbed := ScreenToWorld(down, cv, start);
    var r := Pan(DragAnchor(start, down.camX, down.camY), cam, start);
    assert r == Camera(down.camX, down.camY, cam.zoom);
    var dx := start.x - CenterX(cv);
    var dy := start.y - CenterY(cv);
    assert grabbed.x - r.camX == dx / down.zoom;
    assert grabbed.y - r.camY == dy / down.zoom;
    RescaleFixed(dx, down.zoom, cam.zoom);
    RescaleFixed(dy, down.zoom, cam.zoom);
  }

  /** Undoing a division by one zoom with a multiplication by another is the
      identity exactly when the zooms agree or the value is zero. */
  lemma RescaleFixed(d: real, z0: Zoom, z1: Zoom)
    ensures (d / z0) * z1 == d <==> d == 0.0 || z1 == z0
  {
    var q := d / z0;
    assert q * z0 == d;
    if d != 0.0 && q * z1 == d {
      assert q != 0.0;
      assert q * (z1 - z0) == 0.0;
    }
  }

  /** A wheel step whose unclamped zoom is in range changes the zoom. */
  lemma WheelChangesZoom(cam: Camera, cv: Canvas, cursor: Point, deltaY: real)
    requires WheelMinZoom <= cam.zoom * (if deltaY > 0.0 then ZoomOutFactor else ZoomInFactor) <= WheelMaxZoom
    ensures Wheel(cam, cv, cursor, deltaY).zoom != cam.zoom
  {
  }

  /** So a wheel step between the mouse-down and a move back to the drag
      start draws the grabbed point away from the pointer, unless the grab
      was at the canvas centre. */
  lemma WheelDuringDragShiftsGrabbedPoint(down: Camera, cv: Canvas, start: Point, cursor: Point, deltaY: real)
    requires WheelMinZoom <= down.zoom * (if deltaY > 0.0 then ZoomOutFactor else ZoomInFactor) <= WheelMaxZoom
    requires start != Point(CenterX(cv), CenterY(cv))
    ensures var anchor := DragAnchor(start, down.camX, down.camY);
            var grabbed := ScreenToWorld(down, cv, start);
            WorldToScreen(Pan(anchor, Wheel(down, cv, cursor, deltaY), start), cv, grabbed) != start
  {
    WheelChangesZoom(down, cv, cursor, deltaY);
    GrabbedPointNeedsSameZoom(down, Wheel(down, cv, cursor, deltaY), cv, start);
  }
}
