# Navigation-graph visualiser, modelled in Dafny

`cli/visualize_graph.py` turns an exported Super Metroid navigation graph
(rooms and the doors between them) into one self-contained HTML page. This
project models the two parts of that file that hold logic:

- the data transform of `build_html`, which does the following:
  - indexes the rooms by id;
  - groups the doors into per-room connection lists;
  - renders each room's hover tooltip;
  - builds one render descriptor per room and per door;
- the non-drawing half of the embedded script, which covers:
  - the world/screen camera transform and the room radius;
  - hover hit-testing, wheel zoom and drag panning;
  - the search highlight set and the initial centring;
  - the view state its event handlers update.

Files and modules:

| file | module | contents |
|---|---|---|
| `graph.dfy` | `Graph` | input records (`Node`, `Edge`), the area and door-cap colour tables, Python truthiness of a door cap |
| `strings.dfy` | `Strings` | `sep.join`, `str(int)` with a parse-back round trip, `includes`, `toLowerCase`, `trim` |
| `transform.dfy` | `Transform` | room lookup, adjacency lists, tooltips, room and door descriptors, the whole transform `Build` |
| `view.dfy` | `View` | camera transform and its inverse, wheel zoom, drag pan (over `real`) |
| `renderer.dfy` | `Renderer` | `nodeRadius`, hit-testing, search, bounding box and `centerView` |
| `handlers.dfy` | `Handlers` | the view state and the mouse, wheel, search and area-checkbox handlers |

Behaviour of the code that the model keeps, including its corner cases:

- **Duplicate room ids.** The room lookup is a dictionary comprehension, so when two rooms share an id the later one wins. `NodeByIdSpec` states this.
- **Tooltip precedence.** The conditional in the tooltip covers the whole concatenation. A room with no outgoing door therefore gets exactly `No doors`, with no heading.
- **Unknown cap colours.** An unknown cap is tagged `#fff` inside a tooltip but drawn `#888` as a line. The two fallbacks differ, and both are modelled (`UnknownCapColours`).
- **Cap truthiness.** A door cap counts when it is truthy in Python: neither null nor the empty string (`Graph.HasCap`).
- **Rooms in unknown areas.** Rooms in unknown areas get the fallback colour `#888` (`BuildRoomDescriptors`). The visibility table `areaVisible` has entries only for the known areas, so for an unknown area `areaVisible[area]` reads as `undefined`, which is falsy, unless the name is an inherited property (next item). The drawing loop skips such rooms, and the hit test never hovers them (`UnknownAreaNeverHovered`).
- **Areas named like inherited properties.** `areaVisible` is a plain JavaScript object. An area with no entry whose name is a property every object inherits from `Object.prototype` (`constructor`, `toString`, `valueOf`, `__proto__` and the others in `Renderer.InheritedNames`) reads as that inherited value. That value is truthy, so such rooms count as visible whatever the checkboxes say, and they can be hovered (`InheritedAreaHovered`).
- **Elevator width.** Door width follows the code's order of assignment: plain 1, a cap sets 2, an elevator then sets 3. `EdgeStyle` also proves this equals taking the wider of the cap width and the elevator width.
- **Zoom on a zero delta.** A wheel event with `deltaY == 0` zooms in, because the factor is 0.9 only when `deltaY > 0`.
- **Wheel during a drag.** The mouse-down records only the pointer and the camera centre, and the drag branch divides by the zoom current at the move. A wheel event in the middle of a drag therefore makes the scene slip under the pointer (`WheelDuringDragShiftsGrabbedPoint`).

The handlers share one state invariant, `Handlers.Valid`. Under it the zoom stays in [0.1, 20] and the visibility table has exactly the known areas. A hovered room exists, and its area is known or an inherited property name. The highlight set is exactly what the current search term selects. `Init` establishes the invariant and every handler keeps it.

## Model

| member | source | states |
|---|---|---|
| Transform.NodeByIdSpec | cli/visualize_graph.py:40 | the lookup's keys are exactly the room ids; each id maps to a room carrying it, and to the last such room in input order |
| Transform.ConnectionTarget | cli/visualize_graph.py:47-48 | a door's shown destination is the name of the (last) room with the target id, or the raw `toRoomIdHex` when no room has that id |
| Transform.Outgoing | cli/visualize_graph.py:43-55 | reference list of a room's connections: empty exactly when no door leaves the room, and every entry comes from a door leaving it |
| Transform.AdjacencyIsOutgoing | cli/visualize_graph.py:43-55 | `adj.get(id, [])` built by the append loop equals the in-order list of connections of the doors leaving `id`; `id` has an entry iff some door leaves it |
| Transform.CapTag | cli/visualize_graph.py:63-66 | the cap tag is empty exactly when the door has no cap (null or empty string); otherwise it shows the cap name in brackets, coloured with the cap's table colour, or `#fff` for a cap not in the table |
| Transform.UnknownCapColours | cli/visualize_graph.py:65-96 | a door with an unknown cap is drawn in `#888` while its tooltip tag is coloured `#fff` |
| Transform.ElevatorSuffix | cli/visualize_graph.py:67-68 | the elevator flag changes a connection line by exactly the suffix " (elevator)" |
| Transform.Tooltip | cli/visualize_graph.py:70-76 | the tooltip is "No doors" exactly when the room has no connections, and otherwise starts with the room heading |
| Transform.TooltipAppend | cli/visualize_graph.py:68-76 | one more connection adds exactly one line to the tooltip: after the heading for the first, after "<br>" otherwise |
| Transform.EdgeStyle | cli/visualize_graph.py:91-107 | width is in {1,2,3}; 3 iff elevator; 2 iff capped and not elevator; colour "#555" iff no cap; known cap gives its table colour, unknown cap "#888"; width equals the max of cap width and elevator width; endpoints, cap and direction copied |
| Transform.Build | cli/visualize_graph.py:36-107 | one room descriptor per room and one door descriptor per door, nothing dropped or merged; door descriptor i is the styling of door i |
| Transform.BuildRoom | cli/visualize_graph.py:58-89 | room descriptor i is built from room i and the in-order list of doors leaving it |
| Transform.BuildRoomDescriptors | cli/visualize_graph.py:78-89 | room descriptor i carries room i's id, name, area, hex and size, sits at (mapX*40, mapY*40), and is coloured by its area or "#888" when the area is unknown |
| Transform.BuildTooltips | cli/visualize_graph.py:58-76 | a room's tooltip is "No doors" iff no door in the input leaves it; otherwise it begins with the room's heading |
| Transform.BuildDoorDescriptors | cli/visualize_graph.py:91-107 | door descriptor i keeps door i's endpoints (resolved or not), cap and direction; width in {1,2,3}; elevator gives 3; no cap gives "#555" |
| Transform.TwoRoomExample | cli/visualize_graph.py:36-107 | on two Crateria rooms joined by one plain "right" door: the door is "#555" with width 1, the first room's tooltip is its heading followed by "right → Parlor", and the second room's is "No doors" |
| Strings.JoinSnoc | cli/visualize_graph.py:75 | joining one more part appends exactly the separator and that part |
| Strings.IntToStringRoundTrip | cli/visualize_graph.py:73 | the decimal text of a coordinate or size in the heading reads back as that integer |
| Strings.Includes | cli/visualize_graph.py:388-390 | `includes` holds iff the term occurs as a contiguous block |
| Strings.Lower | cli/visualize_graph.py:384-390 | lower-casing keeps the length; its result has no capital A–Z; each capital moves to its small letter and every other character is kept |
| Strings.Trim | cli/visualize_graph.py:384 | trim yields a block of the input with only whitespace removed at either end, not starting or ending in whitespace, empty iff the input is all whitespace |
| View.ScreenToWorld | cli/visualize_graph.py:225-237 | screen-to-world is a right inverse of world-to-screen: mapping its result back gives the screen point |
| View.WorldToScreenInverse | cli/visualize_graph.py:225-237 | world-to-screen then screen-to-world returns the world point (zoom > 0) |
| View.Wheel | cli/visualize_graph.py:370-378 | after a wheel event zoom is in [0.1, 20]; the world point under the cursor maps back to the cursor; the new zoom is the old zoom times 0.9 (positive delta) or 1.1 (otherwise), or exactly 0.1 or 20 when that product falls below or above the range; from an in-range zoom a positive delta never zooms in and any other delta never zooms out |
| View.Pan | cli/visualize_graph.py:323-326 | panning keeps the zoom; with the pointer back at the drag start the camera is the one recorded at mouse-down; the camera moves left exactly when the pointer moved right, and up exactly when it moved down |
| View.PanKeepsGrabbedPoint | cli/visualize_graph.py:314-328 | while dragging, the world point grabbed at mouse-down stays under the pointer as long as the zoom is unchanged since the mouse-down |
| View.GrabbedPointNeedsSameZoom | cli/visualize_graph.py:314-328 | with the pointer back at the drag start, the grabbed point is under it exactly when the zoom is unchanged since the mouse-down or the grab was at the canvas centre |
| View.WheelChangesZoom | cli/visualize_graph.py:370-378 | a wheel step whose unclamped zoom stays within [0.1, 20] changes the zoom |
| View.WheelDuringDragShiftsGrabbedPoint | cli/visualize_graph.py:314-378 | a wheel step between mouse-down and a move back to the drag start leaves the grabbed point away from the pointer, unless the grab was at the canvas centre |
| View.WorldToScreen | cli/visualize_graph.py:225-230 | the camera centre is drawn at the canvas centre, and a point lies left of (above) the camera exactly when it is drawn left of (above) the canvas centre |
| Renderer.NodeRadius | cli/visualize_graph.py:239-241 | the radius is at least 4; it is 2*min(w,h)+3 when min(w,h) >= 1 and 4 otherwise |
| Renderer.NodeRadiusMonotone | cli/visualize_graph.py:239-241 | the radius is monotone in min(w,h) |
| Renderer.CheckboxesIrrelevant | cli/visualize_graph.py:335 | with entries only for known areas, any two checkbox tables agree on every unknown area, which reads as visible exactly when its name is an inherited `Object.prototype` property |
| Renderer.HitTest | cli/visualize_graph.py:331-345 | returns no room iff no visible room has the pointer strictly inside its hit radius (radius + 8/zoom); otherwise a qualifying room that no qualifying room is closer than, and strictly closer than every earlier qualifying room |
| Renderer.HoverTargetUnique | cli/visualize_graph.py:331-345 | the hit-test specification determines the result: two results meeting it are equal |
| Renderer.PointerOnCentre | cli/visualize_graph.py:331-345 | a pointer on a visible room's centre hovers that room or an earlier room with the same centre |
| Renderer.UnknownAreaNeverHovered | cli/visualize_graph.py:331-345 | with visibility entries only for known areas, a hovered room's area is a known area or an inherited property name; rooms of any other area are never hovered |
| Renderer.InheritedAreaHovered | cli/visualize_graph.py:331-345 | in any room list, a pointer on the centre of a room whose area is an inherited property name, such as "constructor", hovers that room, or an earlier room with the same centre, whatever the checkboxes say |
| Renderer.Search | cli/visualize_graph.py:383-394 | term is the lower-cased, trimmed input; empty term gives an empty set; otherwise the set is exactly the ids of rooms whose lower-cased label, hex or area contains the term; always a subset of the room ids |
| Renderer.SearchExactName | cli/visualize_graph.py:384-391 | searching a room's exact (non-blank) label highlights that room |
| Renderer.SearchNarrowing | cli/visualize_graph.py:384-391 | a term containing a non-empty term highlights a subset of what that term highlights |
| Renderer.BoundingBox | cli/visualize_graph.py:400-407 | no bounds iff there are no rooms; otherwise every room lies within the bounds and each bound is attained by some room |
| Renderer.CenterOn | cli/visualize_graph.py:408-413 | zoom in [0.3, 5]: the fitted zoom when that is in range, otherwise exactly 0.3 or 5; the middle of the bounds maps to the canvas centre |
| Renderer.CenterOnFits | cli/visualize_graph.py:410-413 | unless the 0.3 floor raised the zoom, every point of the bounds appears on the canvas |
| Renderer.CenterView | cli/visualize_graph.py:399-414 | no rooms leaves the camera unchanged; otherwise the camera is centred on the rooms' bounding box with zoom in [0.3, 5] |
| Handlers.InitialVisibility | cli/visualize_graph.py:189-190 | every known area, and only those, starts visible |
| Handlers.Init | cli/visualize_graph.py:206-211 | the initial state meets the state invariant and has no drag, hover, term or highlight; all known areas visible; the camera comes from centring, or stays at the origin with zoom 1 when there are no rooms |
| Handlers.MouseDown | cli/visualize_graph.py:314-319 | a mouse-down starts a drag anchored at the pointer and the current camera centre; nothing else changes; the state invariant is kept |
| Handlers.MouseUp | cli/visualize_graph.py:365-367 | a mouse-up ends the drag and changes nothing else; the state invariant is kept |
| Handlers.MouseMove | cli/visualize_graph.py:323-349 | dragging pans and changes nothing else; otherwise the camera stays and the hovered room is the hit-test target; the state invariant (zoom in [0.1, 20], visibility keys, hover, highlight set) is kept |
| Handlers.DragToStartRestoresCamera | cli/visualize_graph.py:314-326 | a drag that returns to its starting point leaves the camera where it was |
| Handlers.OnWheel | cli/visualize_graph.py:370-380 | only the camera changes, to the camera of `View.Wheel` (the 0.9/1.1 zoom step, clamped to [0.1, 20]), with the point under the cursor fixed |
| Handlers.OnSearch | cli/visualize_graph.py:383-396 | only the term and highlight set change, to the search result |
| Handlers.ToggleArea | cli/visualize_graph.py:192-197 | the checkbox sets its area's visibility and no other area's; nothing else changes |

## Left out

- File reading, argument parsing, writing the page and the size message (cli/visualize_graph.py:32-34, 425-438): I/O.
- JSON parsing and serialisation (`json.load`, `json.dumps`). The input is taken as typed records. Because of that, the malformed-input and missing-key error paths are not modelled.
- `html.escape` is a library function whose body is not shown. It is an uninterpreted parameter `escape: string -> string` of the tooltip functions.
- The HTML/CSS template, legend and stats text (cli/visualize_graph.py:113-175, 217): static text.
- `draw` and `resize` (cli/visualize_graph.py:219-223, 243-311) are left out as presentation over the canvas API. This covers culling margins, alpha, colours, fonts and label placement.
- Left out as DOM plumbing: checkbox creation, tooltip element content and placement against the window size, and the redraw calls (cli/visualize_graph.py:192-204, 346-362).
- Floating point is left out. Camera maths is over exact `real`, and JavaScript numbers and IEEE rounding are not modelled.
- Renderer.HitTest compares squared distances with squared hit radii instead of calling `Math.sqrt`. Both sides are non-negative, so this is the same comparison. The initial `Infinity` is modelled as "no candidate yet".
- Renderer.BoundingBox models the initial ±`Infinity` bounds as "no bounds yet".
- Strings.Lower maps only the ASCII letters A–Z. JavaScript's `toLowerCase` also lower-cases other scripts; that Unicode case mapping is not modelled.
- Strings.IntToString formats integers only. Room coordinates and sizes are taken to be integers; Python's formatting of floats is not modelled.
- Handlers.MouseMove identifies the hovered room by its index in the room list rather than by object identity.
- Handlers.ToggleArea requires a known area, because the page creates checkboxes only for the areas of the colour table.
