/**
 The interactive part of the embedded script that is not drawing: room
 radius, hover hit-testing, search highlighting, the initial camera
 placement, and the view state its event handlers update.
 */
module Renderer {
  import opened Graph
  import opened Transform
  import opened View
  import Strings

  /* ---------------------------------------------------------------- radius */

  /** `nodeRadius`: `max(4, min(w, h) * 2 + 3)`. */
  function NodeRadius(n: NodeDesc): (r: int)
    ensures r >= 4
    ensures MinInt(n.w, n.h) >= 1 ==> r == 2 * MinInt(n.w, n.h) + 3
    ensures MinInt(n.w, n.h) <= 0 ==> r == 4
  {
    var r := MinInt(n.w, n.h) * 2 + 3;
    if 4 < r then r else 4
  }

  /** A room with a larger footprint never gets a smaller circle. */
  lemma NodeRadiusMonotone(a: NodeDesc, b: NodeDesc)
    requires MinInt(a.w, a.h) <= MinInt(b.w, b.h)
    ensures NodeRadius(a) <= NodeRadius(b)
  {
  }

  /* ------------------------------------------------------------- hit test */

  /** The properties every JavaScript object inherits from ECMAScript's
      `Object.prototype`. Reading one of them on the visibility table yields a
      function, or for `__proto__` the prototype object, and both are truthy. */
  const InheritedNames: set<string> := {
    "constructor", "hasOwnProperty", "isPrototypeOf", "propertyIsEnumerable",
    "toLocaleString", "toString", "valueOf", "__proto__",
    "__defineGetter__", "__defineSetter__", "__lookupGetter__", "__lookupSetter__"
  }

  /** `areaVisible[area]` as a condition. The table is a plain object: an area
      with an entry reads as its flag; one without reads as an inherited
      property when it names one (truthy), and as `undefined` (falsy)
      otherwise. */
  function AreaVisible(visible: map<string, bool>, area: string): bool
  {
    if area in visible then visible[area] else area in InheritedNames
  }

  /** The world position of a room. */
  function Position(n: NodeDesc): Point
  {
    Point(n.x as real, n.y as real)
  }

  /** Squared distance from a room's centre to world point `w`. */
  function Dist2(n: NodeDesc, w: Point): real
  {
    var dx := n.x as real - w.x;
    var dy := n.y as real - w.y;
    dx * dx + dy * dy
  }

  /** The hit radius: the room's radius plus 8 screen pixels. */
  function HitRadius(n: NodeDesc, zoom: Zoom): (r: real)
    ensures r > 0.0
  {
    NodeRadius(n) as real + 8.0 / zoom
  }

  /** Room `n` is a hover candidate for pointer world position `w`: its area
      is visible and the pointer lies strictly inside its hit radius. Both
      sides are compared squared, which for non-negative values is the same
      as comparing the square root. */
  predicate Candidate(n: NodeDesc, visible: map<string, bool>, w: Point, zoom: Zoom)
  {
    AreaVisible(visible, n.area) && Dist2(n, w) < HitRadius(n, zoom) * HitRadius(n, zoom)
  }

  /** `hit` is the hover target among the first `upto` rooms: none when no
      room qualifies; otherwise a qualifying room no qualifying room is closer
      than, and strictly closer than every qualifying room before it. */
  ghost predicate HoverTargetAmong(nodes: seq<NodeDesc>, upto: int, visible: map<string, bool>,
                                   w: Point, zoom: Zoom, hit: Option<nat>)
    requires 0 <= upto <= |nodes|
  {
    match hit
    case None => forall j :: 0 <= j < upto ==> !Candidate(nodes[j], visible, w, zoom)
    case Some(k) =>
      && k < upto
      && Candidate(nodes[k], visible, w, zoom)
      && (forall j :: 0 <= j < upto && Candidate(nodes[j], visible, w, zoom) ==> Dist2(nodes[k], w) <= Dist2(nodes[j], w))
      && (forall j :: 0 <= j < k && Candidate(nodes[j], visible, w, zoom) ==> Dist2(nodes[k], w) < Dist2(nodes[j], w))
  }

  ghost predicate HoverTarget(nodes: seq<NodeDesc>, visible: map<string, bool>, w: Point, zoom: Zoom, hit: Option<nat>)
  {
    HoverTargetAmong(nodes, |nodes|, visible, w, zoom, hit)
  }

  /** The idle branch of the mouse-move handler: the nearest visible room
      whose hit radius contains the pointer, ties going to the earliest room. */
  method HitTest(nodes: seq<NodeDesc>, visible: map<string, bool>, cam: Camera, cv: Canvas, pointer: Point)
    returns (hit: Option<nat>)
    ensures HoverTarget(nodes, visible, ScreenToWorld(cam, cv, pointer), cam.zoom, hit)
  {
    var w := ScreenToWorld(cam, cv, pointer);
    hit := None;
    var closest: Option<real> := None;  // squared distance of `hit`; None stands for Infinity
    var i := 0;
    while i < |nodes|
      invariant 0 <= i <= |nodes|
      invariant HoverTargetAmong(nodes, i, visible, w, cam.zoom, hit)
      invariant hit.None? <==> closest.None?
      invariant hit.Some? ==> hit.value < i && closest.value == Dist2(nodes[hit.value], w)
    {
      var (next, nextClosest) := Consider(nodes[i], i, visible, w, cam.zoom, hit, closest);
      HoverStep(nodes, i, visible, w, cam.zoom, hit, next);
      hit, closest := next, nextClosest;
      i := i + 1;
    }
  }

  /** The body of the hit-test loop for room `n` at index `i`: skip it when
      its area is hidden; otherwise take it when the pointer is inside its hit
      radius and it is closer than the closest room so far. */
  function Consider(n: NodeDesc, i: nat, visible: map<string, bool>, w: Point, zoom: Zoom,
                    hit: Option<nat>, closest: Option<real>): (r: (Option<nat>, Option<real>))
    ensures Candidate(n, visible, w, zoom) && (closest.None? || Dist2(n, w) < closest.value) ==>
              r == (Some(i), Some(Dist2(n, w)))
    ensures !(Candidate(n, visible, w, zoom) && (closest.None? || Dist2(n, w) < closest.value)) ==>
              r == (hit, closest)
  {
    if !AreaVisible(visible, n.area) then (hit, closest)
    else
      var d := Dist2(n, w);
      var hitRadius := HitRadius(n, zoom);
      if d < hitRadius * hitRadius && (closest.None? || d < closest.value) then (Some(i), Some(d))
      else (hit, closest)
  }

  /** One step of the hit-test loop: room `i` replaces the current target
      exactly when it is a candidate strictly closer than that target. */
  lemma HoverStep(nodes: seq<NodeDesc>, i: int, visible: map<string, bool>, w: Point, zoom: Zoom,
                  hit: Option<nat>, next: Option<nat>)
    requires 0 <= i < |nodes|
    requires HoverTargetAmong(nodes, i, visible, w, zoom, hit)
    requires next == if Candidate(nodes[i], visible, w, zoom)
                        && (hit.None? || Dist2(nodes[i], w) < Dist2(nodes[hit.value], w))
                     then Some(i) else hit
    ensures HoverTargetAmong(nodes, i + 1, visible, w, zoom, next)
  {
  }

  /** The hover target is determined: two results meeting the specification
      are the same. */
  lemma HoverTargetUnique(nodes: seq<NodeDesc>, visible: map<string, bool>, w: Point, zoom: Zoom,
                          a: Option<nat>, b: Option<nat>)
    requires HoverTarget(nodes, visible, w, zoom, a)
    requires HoverTarget(nodes, visible, w, zoom, b)
    ensures a == b
  {
    if a.Some? && b.Some? {
      assert Dist2(nodes[a.value], w) == Dist2(nodes[b.value], w);
    }
  }

  /** A pointer exactly on the centre of a visible room hovers a room at
      distance zero: that room, unless an earlier room has the same centre. */
  lemma PointerOnCentre(nodes: seq<NodeDesc>, visible: map<string, bool>, zoom: Zoom, k: int, hit: Option<nat>)
    requires 0 <= k < |nodes| && AreaVisible(visible, nodes[k].area)
    requires HoverTarget(nodes, visible, Position(nodes[k]), zoom, hit)
    ensures hit.Some? && hit.value <= k
    ensures Position(nodes[hit.value]) == Position(nodes[k])
  {
    var w := Position(nodes[k]);
    assert Dist2(nodes[k], w) == 0.0;
    assert Candidate(nodes[k], visible, w, zoom);
    var h := hit.value;
    var dx := nodes[h].x as real - w.x;
    var dy := nodes[h].y as real - w.y;
    assert dx * dx + dy * dy <= 0.0;
    SquareZero(dx, dy);
  }

  lemma SquareZero(a: real, b: real)
    requires a * a + b * b <= 0.0
    ensures a == 0.0 && b == 0.0
  {
    SquareNonNegative(a);
    SquareNonNegative(b);
  }

  lemma SquareNonNegative(a: real)
    ensures a * a >= 0.0
    ensures a * a == 0.0 ==> a == 0.0
  {
    if a < 0.0 {
      assert a * a == (-a) * (-a);
    }
    if a != 0.0 {
      assert (a * a) / a == a;
    }
  }

  /** With entries only for known areas, a room is hovered only when its area
      is known or names an inherited property: every other area reads as
      `undefined`, so its rooms are never hovered. */
  lemma UnknownAreaNeverHovered(nodes: seq<NodeDesc>, visible: map<string, bool>, w: Point, zoom: Zoom, hit: Option<nat>)
    requires visible.Keys <= AreaColors.Keys
    requires HoverTarget(nodes, visible, w, zoom, hit)
    ensures hit.Some? ==> nodes[hit.value].area in AreaColors || nodes[hit.value].area in InheritedNames
  {
  }

  /** No inherited property name is a known area. */
  lemma InheritedNamesUnknown()
    ensures forall a :: a in InheritedNames ==> a !in AreaColors
  {
    assert "constructor" !in AreaColors;
    assert "hasOwnProperty" !in AreaColors;
    assert "isPrototypeOf" !in AreaColors;
    assert "propertyIsEnumerable" !in AreaColors;
    assert "toLocaleString" !in AreaColors;
    assert "toString" !in AreaColors;
    assert "valueOf" !in AreaColors;
    assert "__proto__" !in AreaColors;
    assert "__defineGetter__" !in AreaColors;
    assert "__defineSetter__" !in AreaColors;
    assert "__lookupGetter__" !in AreaColors;
    assert "__lookupSetter__" !in AreaColors;
  }

  /** With entries only for known areas, the checkboxes cannot change whether
      an unknown area reads as visible: it does exactly when its name is an
      inherited property. */
  lemma CheckboxesIrrelevant(v1: map<string, bool>, v2: map<string, bool>, area: string)
    requires v1.Keys <= AreaColors.Keys && v2.Keys <= AreaColors.Keys
    requires area !in AreaColors
    ensures AreaVisible(v1, area) == AreaVisible(v2, area)
    ensures AreaVisible(v1, area) <==> area in InheritedNames
  {
    assert area !in v1 && area !in v2;
  }

  /** A room whose area names an inherited property (such as "constructor")
      reads as visible whatever the checkboxes say, so a pointer on its
      centre hovers it, or an earlier room drawn at the same centre. */
  lemma InheritedAreaHovered(nodes: seq<NodeDesc>, visible: map<string, bool>, zoom: Zoom, k: int, hit: Option<nat>)
    requires 0 <= k < |nodes|
    requires visible.Keys <= AreaColors.Keys
    requires nodes[k].area in InheritedNames
    requires HoverTarget(nodes, visible, Position(nodes[k]), zoom, hit)
    ensures hit.Some? && hit.value <= k
    ensures Position(nodes[hit.value]) == Position(nodes[k])
  {
    InheritedNamesUnknown();
    assert AreaVisible(visible, nodes[k].area);
    PointerOnCentre(nodes, visible, zoom, k, hit);
  }

  /* --------------------------------------------------------------- search */

  /** The search input's value, lower-cased and trimmed. */
  function SearchTerm(value: string): string
  {
    Strings.Trim(Strings.Lower(value))
  }

  /** A room matches a term when its lower-cased label, hex id or area
      contains it. */
  ghost predicate Matches(n: NodeDesc, term: string)
  {
    || Strings.Contains(Strings.Lower(n.name), term)
    || Strings.Contains(Strings.Lower(n.hex), term)
    || Strings.Contains(Strings.Lower(n.area), term)
  }

  /** The highlight set a term selects: nothing for the empty term, otherwise
      the ids of the matching rooms. */
  ghost function HighlightSet(nodes: seq<NodeDesc>, term: string): set<RoomId>
  {
    if |term| == 0 then {} else MatchSet(nodes, |nodes|, term)
  }

  /** The ids of the matching rooms among the first `upto`. */
  ghost function MatchSet(nodes: seq<NodeDesc>, upto: int, term: string): set<RoomId>
    requires 0 <= upto <= |nodes|
  {
    set j | 0 <= j < upto && Matches(nodes[j], term) :: nodes[j].id
  }

  lemma MatchSetStep(nodes: seq<NodeDesc>, i: int, term: string)
    requires 0 <= i < |nodes|
    ensures MatchSet(nodes, i + 1, term)
         == MatchSet(nodes, i, term) + (if Matches(nodes[i], term) then {nodes[i].id} else {})
  {
  }

  function RoomIdSet(nodes: seq<NodeDesc>): set<RoomId>
  {
    set n | n in nodes :: n.id
  }

  /** The search input handler: recompute the term and the highlight set. */
  method Search(nodes: seq<NodeDesc>, value: string) returns (term: string, highlight: set<RoomId>)
    ensures term == SearchTerm(value)
    ensures highlight == HighlightSet(nodes, term)
    ensures |term| == 0 ==> highlight == {}
    ensures highlight <= RoomIdSet(nodes)
  {
    term := SearchTerm(value);
    highlight := {};
    if |term| > 0 {
      var i := 0;
      while i < |nodes|
        invariant 0 <= i <= |nodes|
        invariant highlight == MatchSet(nodes, i, term)
      {
        var n := nodes[i];
        MatchSetStep(nodes, i, term);
        if Strings.Includes(Strings.Lower(n.name), term)
          || Strings.Includes(Strings.Lower(n.hex), term)
          || Strings.Includes(Strings.Lower(n.area), term)
        {
          highlight := highlight + {n.id};
        }
        i := i + 1;
      }
    }
    assert forall j :: 0 <= j < |nodes| ==> nodes[j] in nodes;
    assert MatchSet(nodes, |nodes|, term) <= RoomIdSet(nodes);
  }

  /** Typing a room's exact label (not blank) highlights that room. */
  lemma SearchExactName(nodes: seq<NodeDesc>, k: int)
    requires 0 <= k < |nodes|
    requires !Strings.AllWhitespace(nodes[k].name)
    ensures nodes[k].id in HighlightSet(nodes, SearchTerm(nodes[k].name))
  {
    var low := Strings.Lower(nodes[k].name);
    Strings.LowerAllWhitespace(nodes[k].name);
    Strings.TrimContained(low);
    assert Matches(nodes[k], SearchTerm(nodes[k].name));
  }

  /** Refining a term never adds rooms: a term containing a non-empty term
      selects a subset of what that term selects. */
  lemma SearchNarrowing(nodes: seq<NodeDesc>, shorter: string, longer: string)
    requires |shorter| > 0
    requires Strings.Contains(longer, shorter)
    ensures HighlightSet(nodes, longer) <= HighlightSet(nodes, shorter)
  {
    forall j | 0 <= j < |nodes| && Matches(nodes[j], longer)
      ensures Matches(nodes[j], shorter)
    {
      var n := nodes[j];
      if Strings.Contains(Strings.Lower(n.name), longer) {
        Strings.ContainsTransitive(Strings.Lower(n.name), longer, shorter);
      } else if Strings.Contains(Strings.Lower(n.hex), longer) {
        Strings.ContainsTransitive(Strings.Lower(n.hex), longer, shorter);
      } else {
        Strings.ContainsTransitive(Strings.Lower(n.area), longer, shorter);
      }
    }
  }

  /* ---------------------------------------------------------- centre view */

  /** World-coordinate bounds of the rooms. */
  datatype Box = Box(minX: int, minY: int, maxX: int, maxY: int)

  /** `b` bounds all rooms, and each of its four sides touches a room. */
  ghost predicate IsBoundingBox(nodes: seq<NodeDesc>, b: Box)
  {
    && (forall i :: 0 <= i < |nodes| ==> b.minX <= nodes[i].x <= b.maxX && b.minY <= nodes[i].y <= b.maxY)
    && (exists i :: 0 <= i < |nodes| && nodes[i].x == b.minX)
    && (exists i :: 0 <= i < |nodes| && nodes[i].x == b.maxX)
    && (exists i :: 0 <= i < |nodes| && nodes[i].y == b.minY)
    && (exists i :: 0 <= i < |nodes| && nodes[i].y == b.maxY)
  }

  /** The bounding-box loop of `centerView`; `None` is the initial
      (+Infinity, -Infinity) bounds, which survive only when there are no rooms. */
  method BoundingBox(nodes: seq<NodeDesc>) returns (box: Option<Box>)
    ensures box.None? <==> |nodes| == 0
    ensures box.Some? ==> IsBoundingBox(nodes, box.value)
  {
    box := None;
    ghost var ix0, ix1, iy0, iy1 := 0, 0, 0, 0;
    var i := 0;
    while i < |nodes|
      invariant 0 <= i <= |nodes|
      invariant box.None? <==> i == 0
      invariant box.Some? ==>
        && (forall j :: 0 <= j < i ==>
              (box.value.minX <= nodes[j].x <= box.value.maxX && box.value.minY <= nodes[j].y <= box.value.maxY))
        && 0 <= ix0 < i && nodes[ix0].x == box.value.minX
        && 0 <= ix1 < i && nodes[ix1].x == box.value.maxX
        && 0 <= iy0 < i && nodes[iy0].y == box.value.minY
        && 0 <= iy1 < i && nodes[iy1].y == box.value.maxY
    {
      var n := nodes[i];
      match box {
        case None =>
          box := Some(Box(n.x, n.y, n.x, n.y));
          ix0, ix1, iy0, iy1 := i, i, i, i;
        case Some(b) =>
          if n.x < b.minX { ix0 := i; }
          if n.x > b.maxX { ix1 := i; }
          if n.y < b.minY { iy0 := i; }
          if n.y > b.maxY { iy1 := i; }
          box := Some(Box(MinInt(b.minX, n.x), MinInt(b.minY, n.y), MaxInt(b.maxX, n.x), MaxInt(b.maxY, n.y)));
      }
      i := i + 1;
    }
  }

  const FitMinZoom: real := 0.3
  const FitMaxZoom: real := 5.0
  /** Extra world units added to each span before fitting. */
  const FitMargin: real := 100.0
  /** Fraction of the canvas the fitted span fills. */
  const FitFill: real := 0.85

  function SpanX(b: Box): real
  {
    (b.maxX - b.minX) as real + FitMargin
  }

  function SpanY(b: Box): real
  {
    (b.maxY - b.minY) as real + FitMargin
  }

  /** The zoom `centerView` computes before clamping. */
  function FitZoom(b: Box, cv: Canvas): real
    requires b.minX <= b.maxX && b.minY <= b.maxY
  {
    Min(cv.width as real / SpanX(b), cv.height as real / SpanY(b)) * FitFill
  }

  /** The camera `centerView` chooses for bounds `b`: centred on the middle of
      the bounds, zoomed to fit them with margin, clamped to [0.3, 5]. */
  function CenterOn(b: Box, cv: Canvas): (r: Camera)
    requires b.minX <= b.maxX && b.minY <= b.maxY
    ensures FitMinZoom <= r.zoom <= FitMaxZoom
    ensures FitMinZoom <= FitZoom(b, cv) <= FitMaxZoom ==> r.zoom == FitZoom(b, cv)
    ensures FitZoom(b, cv) < FitMinZoom ==> r.zoom == FitMinZoom
    ensures FitZoom(b, cv) > FitMaxZoom ==> r.zoom == FitMaxZoom
    ensures WorldToScreen(r, cv, Point((b.minX + b.maxX) as real / 2.0, (b.minY + b.maxY) as real / 2.0))
         == Point(CenterX(cv), CenterY(cv))
  {
    var z: Zoom := Clamp(FitMinZoom, FitMaxZoom, FitZoom(b, cv));
    Camera((b.minX + b.maxX) as real / 2.0, (b.minY + b.maxY) as real / 2.0, z)
  }

  /** `centerView`: leaves the camera alone when there are no rooms. */
  method CenterView(nodes: seq<NodeDesc>, cv: Canvas, cam: Camera) returns (r: Camera)
    ensures |nodes| == 0 ==> r == cam
    ensures |nodes| > 0 ==> FitMinZoom <= r.zoom <= FitMaxZoom
    ensures |nodes| > 0 ==> exists b :: IsBoundingBox(nodes, b) && r == CenterOn(b, cv)
  {
    var box := BoundingBox(nodes);
    match box
    case None =>
      r := cam;
    case Some(b) =>
      assert b.minX <= nodes[0].x <= b.maxX && b.minY <= nodes[0].y <= b.maxY;
      r := CenterOn(b, cv);
  }

  /** |a| * z stays within half the canvas when z is at most the fill
      fraction of canvas/span and |a| is at most half the span. */
  lemma ScaledWithinHalf(a: real, span: real, z: real, size: real)
    requires span > 0.0 && z > 0.0 && size >= 0.0
    requires -span / 2.0 <= a <= span / 2.0
    requires z <= size / span * FitFill
    ensures -size / 2.0 <= a * z <= size / 2.0
  {
    var bound := span / 2.0 * z;
    assert span * (size / span) == size;
    assert span / 2.0 * z <= span / 2.0 * (size / span * FitFill);
    assert span / 2.0 * (size / span * FitFill) == size * FitFill / 2.0;
    if a >= 0.0 {
      assert a * z <= bound;
    } else {
      assert -a * z <= bound;
    }
  }

  /** When the fitted zoom is not raised by the 0.3 floor, every point of the
      bounds is shown on the canvas. */
  lemma CenterOnFits(b: Box, cv: Canvas, p: Point)
    requires b.minX <= b.maxX && b.minY <= b.maxY
    requires FitZoom(b, cv) >= FitMinZoom
    requires b.minX as real <= p.x <= b.maxX as real && b.minY as real <= p.y <= b.maxY as real
    ensures var s := WorldToScreen(CenterOn(b, cv), cv, p);
            0.0 <= s.x <= cv.width as real && 0.0 <= s.y <= cv.height as real
  {
    var r := CenterOn(b, cv);
    FitZoomBelow(b, cv, r.zoom);
    CameraShowsBox(b, cv, r, p);
  }

  /** A camera on the middle of the bounds, zoomed no further than the fill
      fraction allows on either axis, shows every point of the bounds. */
  lemma CameraShowsBox(b: Box, cv: Canvas, r: Camera, p: Point)
    requires b.minX <= b.maxX && b.minY <= b.maxY
    requires b.minX as real <= p.x <= b.maxX as real && b.minY as real <= p.y <= b.maxY as real
    requires r.camX == (b.minX + b.maxX) as real / 2.0 && r.camY == (b.minY + b.maxY) as real / 2.0
    requires r.zoom <= cv.width as real / ((b.maxX - b.minX) as real + FitMargin) * FitFill
    requires r.zoom <= cv.height as real / ((b.maxY - b.minY) as real + FitMargin) * FitFill
    ensures var s := WorldToScreen(r, cv, p);
            0.0 <= s.x <= cv.width as real && 0.0 <= s.y <= cv.height as real
  {
    AxisFits(b.minX, b.maxX, cv.width, r.camX, r.zoom, p.x);
    AxisFits(b.minY, b.maxY, cv.height, r.camY, r.zoom, p.y);
  }

  /** The zoom `CenterOn` picks, when the floor does not raise it, is within
      the fill fraction of canvas over span on both axes. */
  lemma FitZoomBelow(b: Box, cv: Canvas, z: real)
    requires b.minX <= b.maxX && b.minY <= b.maxY
    requires FitZoom(b, cv) >= FitMinZoom
    requires z == CenterOn(b, cv).zoom
    ensures z <= cv.width as real / ((b.maxX - b.minX) as real + FitMargin) * FitFill
    ensures z <= cv.height as real / ((b.maxY - b.minY) as real + FitMargin) * FitFill
  {
    var wx := cv.width as real / SpanX(b);
    var wy := cv.height as real / SpanY(b);
    assert z <= Min(wx, wy) * FitFill;
  }

  /** One axis of `CenterOnFits`: a coordinate within [lo, hi], seen from the
      middle `c` of that range at a zoom no larger than the fitted one, lands
      within [0, size]. */
  lemma AxisFits(lo: int, hi: int, size: nat, c: real, z: Zoom, x: real)
    requires lo <= hi && lo as real <= x <= hi as real
    requires c == (lo + hi) as real / 2.0
    requires z <= size as real / ((hi - lo) as real + FitMargin) * FitFill
    ensures 0.0 <= (x - c) * z + size as real / 2.0 <= size as real
  {
    ScaledWithinHalf(x - c, (hi - lo) as real + FitMargin, z, size as real);
  }
}
