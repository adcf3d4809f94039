/**
 The renderer's view state as one value, and the event handlers of the
 embedded script as transitions on it (redrawing and the tooltip element are
 not modelled).
 */
module Handlers {
  import opened Graph
  import opened Transform
  import opened View
  import opened Renderer

  /** Camera, drag state, hovered room (an index into the room list), search
      term, highlight set and per-area visibility. */
  datatype ViewState = ViewState(
    cam: Camera,
    dragging: bool,
    anchor: DragAnchor,
    hovered: Option<nat>,
    searchTerm: string,
    highlighted: set<RoomId>,
    visible: map<string, bool>)

  /** One checkbox per known area, all checked at start. */
  function InitialVisibility(): (m: map<string, bool>)
    ensures m.Keys == AreaColors.Keys
    ensures forall a :: a in m ==> m[a]
  {
    map a | a in AreaColors :: true
  }

  /** What every handler preserves: the zoom stays in [0.1, 20]; the
      visibility table has exactly the known areas; the hovered room exists
      and its area is known or names an inherited property; the highlight set
      is the one the current term selects, so only existing rooms are
      highlighted. */
  ghost predicate Valid(s: ViewState, nodes: seq<NodeDesc>)
  {
    && WheelMinZoom <= s.cam.zoom <= WheelMaxZoom
    && s.visible.Keys == AreaColors.Keys
    && (s.hovered.Some? ==>
          && s.hovered.value < |nodes|
          && (nodes[s.hovered.value].area in AreaColors || nodes[s.hovered.value].area in InheritedNames))
    && s.highlighted == HighlightSet(nodes, s.searchTerm)
    && s.highlighted <= RoomIdSet(nodes)
  }

  /** Page start: camera at the origin with zoom 1, then `centerView`. */
  method Init(nodes: seq<NodeDesc>, cv: Canvas) returns (s: ViewState)
    ensures Valid(s, nodes)
    ensures !s.dragging && s.hovered.None? && s.searchTerm == "" && s.highlighted == {}
    ensures forall a :: a in AreaColors ==> AreaVisible(s.visible, a)
    ensures |nodes| == 0 ==> s.cam == Camera(0.0, 0.0, 1.0)
    ensures |nodes| > 0 ==> FitMinZoom <= s.cam.zoom <= FitMaxZoom
    ensures |nodes| > 0 ==> exists b :: IsBoundingBox(nodes, b) && s.cam == CenterOn(b, cv)
  {
    var cam := CenterView(nodes, cv, Camera(0.0, 0.0, 1.0));
    s := ViewState(cam, false, DragAnchor(Point(0.0, 0.0), 0.0, 0.0), None, "", {}, InitialVisibility());
  }

  /** Mouse-down: start a drag anchored at the pointer and the current camera;
      nothing else changes. */
  function MouseDown(s: ViewState, nodes: seq<NodeDesc>, pointer: Point): (r: ViewState)
    ensures Valid(s, nodes) ==> Valid(r, nodes)
    ensures r.dragging
    ensures r.anchor == DragAnchor(pointer, s.cam.camX, s.cam.camY)
    ensures r.(dragging := s.dragging, anchor := s.anchor) == s
  {
    s.(dragging := true, anchor := DragAnchor(pointer, s.cam.camX, s.cam.camY))
  }

  /** Mouse-up: end the drag; nothing else changes. */
  function MouseUp(s: ViewState, nodes: seq<NodeDesc>): (r: ViewState)
    ensures Valid(s, nodes) ==> Valid(r, nodes)
    ensures !r.dragging
    ensures r.(dragging := s.dragging) == s
  {
    s.(dragging := false)
  }

  /** Mouse-move: while dragging, pan and leave the hover alone; otherwise
      leave the camera alone and hover the hit-test result. */
  method MouseMove(s: ViewState, nodes: seq<NodeDesc>, cv: Canvas, pointer: Point) returns (r: ViewState)
    requires Valid(s, nodes)
    ensures Valid(r, nodes)
    ensures s.dragging ==> r == s.(cam := Pan(s.anchor, s.cam, pointer))
    ensures !s.dragging ==> r == s.(hovered := r.hovered)
    ensures !s.dragging ==> HoverTarget(nodes, s.visible, ScreenToWorld(s.cam, cv, pointer), s.cam.zoom, r.hovered)
  {
    if s.dragging {
      r := s.(cam := Pan(s.anchor, s.cam, pointer));
    } else {
      var hit := HitTest(nodes, s.visible, s.cam, cv, pointer);
      UnknownAreaNeverHovered(nodes, s.visible, ScreenToWorld(s.cam, cv, pointer), s.cam.zoom, hit);
      r := s.(hovered := hit);
    }
  }

  /** A drag that ends where it began leaves the camera where it was. */
  lemma DragToStartRestoresCamera(s: ViewState, nodes: seq<NodeDesc>, pointer: Point)
    ensures var d := MouseDown(s, nodes, pointer);
            Pan(d.anchor, d.cam, pointer) == s.cam
  {
  }

  /** Wheel: zoom about the pointer (see `View.Wheel`). */
  function OnWheel(s: ViewState, nodes: seq<NodeDesc>, cv: Canvas, pointer: Point, deltaY: real): (r: ViewState)
    requires Valid(s, nodes)
    ensures Valid(r, nodes)
    ensures r.cam == Wheel(s.cam, cv, pointer, deltaY)
    ensures WheelMinZoom <= r.cam.zoom <= WheelMaxZoom
    ensures WorldToScreen(r.cam, cv, ScreenToWorld(s.cam, cv, pointer)) == pointer
    ensures r.(cam := s.cam) == s
  {
    s.(cam := Wheel(s.cam, cv, pointer, deltaY))
  }

  /** Search input: replace the term and the highlight set. */
  method OnSearch(s: ViewState, nodes: seq<NodeDesc>, value: string) returns (r: ViewState)
    requires Valid(s, nodes)
    ensures Valid(r, nodes)
    ensures r.searchTerm == SearchTerm(value)
    ensures r.highlighted == HighlightSet(nodes, r.searchTerm)
    ensures r.(searchTerm := s.searchTerm, highlighted := s.highlighted) == s
  {
    var term, highlight := Search(nodes, value);
    r := s.(searchTerm := term, highlighted := highlight);
  }

  /** An area checkbox: set that area's visibility, and nothing else. Only
      known areas have a checkbox. */
  function ToggleArea(s: ViewState, nodes: seq<NodeDesc>, area: string, checked: bool): (r: ViewState)
    requires Valid(s, nodes)
    requires area in AreaColors
    ensures Valid(r, nodes)
    ensures AreaVisible(r.visible, area) == checked
    ensures forall a :: a != area ==> AreaVisible(r.visible, a) == AreaVisible(s.visible, a)
    ensures r.(visible := s.visible) == s
  {
    s.(visible := s.visible[area := checked])
  }
}
