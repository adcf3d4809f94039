/**
 The data transform of `build_html`: rooms indexed by id, doors grouped into
 per-room connection lists, pre-rendered hover tooltips, and one render
 descriptor per room and per door.
 */
module Transform {
  import opened Graph
  import Strings

  /** World units per map grid cell. */
  const CellSize: int := 40

  /** Fill colour of a room whose area is not in `AreaColors`. */
  const UnknownAreaColor: string := "#888"

  /** Line colour and width of a door without a cap. */
  const PlainDoorColor: string := "#555"

  /** Line colour of a capped door whose cap is not in `DoorCapColors`. */
  const UnknownCapLineColor: string := "#888"

  /** Tag colour, inside a tooltip, of a cap not in `DoorCapColors`. */
  const UnknownCapTagColor: string := "#fff"

  /** The whole tooltip of a room with no outgoing door. */
  const NoDoors: string := "No doors"

  /** One outgoing door as listed in a room's tooltip. */
  datatype Connection = Connection(
    to: string,
    dir: string,
    cap: Option<string>,
    ability: Option<string>,
    elevator: bool)

  /** The render-ready room record embedded in the page (`js_nodes`). */
  datatype NodeDesc = NodeDesc(
    id: RoomId,
    name: string,   // the `label` field
    area: string,
    color: string,
    x: int,
    y: int,
    w: int,
    h: int,
    hex: string,
    tooltip: string)

  /** The render-ready door record embedded in the page (`js_edges`). */
  datatype EdgeDesc = EdgeDesc(
    from: RoomId,
    to: RoomId,
    color: string,
    width: int,
    cap: Option<string>,
    dir: string)

  datatype Rendered = Rendered(nodes: seq<NodeDesc>, edges: seq<EdgeDesc>)

  /* ------------------------------------------------------------ node index */

  function RoomIds(nodes: seq<Node>): set<RoomId>
  {
    set n | n in nodes :: n.roomId
  }

  /** No later room in `nodes` has the id of `nodes[i]`. */
  ghost predicate LastWithId(nodes: seq<Node>, i: int)
    requires 0 <= i < |nodes|
  {
    forall j :: i < j < |nodes| ==> nodes[j].roomId != nodes[i].roomId
  }

  /** The room lookup `{n["roomId"]: n for n in nodes}`: every id of `nodes`
      is a key, and it maps to the LAST room carrying that id. */
  function NodeById(nodes: seq<Node>): map<RoomId, Node>
  {
    if |nodes| == 0 then map[]
    else NodeById(nodes[..|nodes| - 1])[nodes[|nodes| - 1].roomId := nodes[|nodes| - 1]]
  }

  /** The lookup holds every room id, each mapped to the last room carrying it. */
  lemma NodeByIdSpec(nodes: seq<Node>)
    ensures NodeById(nodes).Keys == RoomIds(nodes)
    ensures forall id :: id in NodeById(nodes) ==> NodeById(nodes)[id] in nodes && NodeById(nodes)[id].roomId == id
    ensures forall i :: 0 <= i < |nodes| && LastWithId(nodes, i) ==> NodeById(nodes)[nodes[i].roomId] == nodes[i]
  {
    NodeByIdKeys(nodes);
    NodeByIdValues(nodes);
    NodeByIdLast(nodes);
  }

  lemma {:induction false} NodeByIdKeys(nodes: seq<Node>)
    ensures NodeById(nodes).Keys == RoomIds(nodes)
  {
    if |nodes| > 0 {
      var init := nodes[..|nodes| - 1];
      NodeByIdKeys(init);
      assert nodes == init + [nodes[|nodes| - 1]];
      assert RoomIds(nodes) == RoomIds(init) + {nodes[|nodes| - 1].roomId};
    }
  }

  lemma {:induction false} NodeByIdValues(nodes: seq<Node>)
    ensures forall id :: id in NodeById(nodes) ==> NodeById(nodes)[id] in nodes && NodeById(nodes)[id].roomId == id
  {
    if |nodes| > 0 {
      var init := nodes[..|nodes| - 1];
      NodeByIdValues(init);
      forall id | id in NodeById(init)
        ensures NodeById(init)[id] in nodes
      {
        var k :| 0 <= k < |init| && init[k] == NodeById(init)[id];
        assert nodes[k] == init[k];
      }
    }
  }

  lemma {:induction false} NodeByIdLast(nodes: seq<Node>)
    ensures forall i :: 0 <= i < |nodes| && LastWithId(nodes, i) ==>
              nodes[i].roomId in NodeById(nodes) && NodeById(nodes)[nodes[i].roomId] == nodes[i]
  {
    if |nodes| > 0 {
      var init := nodes[..|nodes| - 1];
      var last := nodes[|nodes| - 1];
      NodeByIdLast(init);
      forall i | 0 <= i < |nodes| - 1 && LastWithId(nodes, i)
        ensures nodes[i].roomId in NodeById(nodes) && NodeById(nodes)[nodes[i].roomId] == nodes[i]
      {
        assert nodes[i] == init[i];
        assert LastWithId(init, i);
        assert nodes[i].roomId != last.roomId;
      }
    }
  }

  /* ------------------------------------------------------------- adjacency */

  /** The tooltip entry of door `e`: the destination's room name when its id
      is known, the raw hex id otherwise. */
  function ConnectionOf(e: Edge, byId: map<RoomId, Node>): Connection
  {
    var toName := if e.toRoomId in byId then byId[e.toRoomId].name else e.toRoomIdHex;
    Connection(toName, e.direction, e.doorCapColor, e.requiredAbility, e.isElevator)
  }

  /** The `adj` dictionary: the loop over `edges` appending each door's
      connection to the list of its source room. */
  function Adjacency(edges: seq<Edge>, byId: map<RoomId, Node>): map<RoomId, seq<Connection>>
  {
    if |edges| == 0 then map[]
    else
      var e := edges[|edges| - 1];
      var adj := Adjacency(edges[..|edges| - 1], byId);
      adj[e.fromRoomId := Get(adj, e.fromRoomId, []) + [ConnectionOf(e, byId)]]
  }

  /** Reference definition: the connections of the doors leaving room `id`,
      in input order. */
  function Outgoing(edges: seq<Edge>, byId: map<RoomId, Node>, id: RoomId): (r: seq<Connection>)
    ensures |r| <= |edges|
    ensures |r| == 0 <==> forall e :: e in edges ==> e.fromRoomId != id
    ensures forall c :: c in r ==> exists e :: e in edges && e.fromRoomId == id && c == ConnectionOf(e, byId)
  {
    if |edges| == 0 then []
    else
      assert forall e :: e in edges ==> e == edges[0] || e in edges[1..];
      (if edges[0].fromRoomId == id then [ConnectionOf(edges[0], byId)] else [])
      + Outgoing(edges[1..], byId, id)
  }

  lemma {:induction false} OutgoingSnoc(edges: seq<Edge>, e: Edge, byId: map<RoomId, Node>, id: RoomId)
    ensures Outgoing(edges + [e], byId, id)
         == Outgoing(edges, byId, id) + (if e.fromRoomId == id then [ConnectionOf(e, byId)] else [])
  {
    if |edges| > 0 {
      assert (edges + [e])[1..] == edges[1..] + [e];
      OutgoingSnoc(edges[1..], e, byId, id);
    } else {
      assert (edges + [e])[1..] == [];
    }
  }

  /** The grouped lists agree with the reference: `adj.get(id, [])` is the
      list of connections of the doors leaving `id`, in input order, and the
      rooms with an entry are exactly the door sources. */
  lemma {:induction false} AdjacencyIsOutgoing(edges: seq<Edge>, byId: map<RoomId, Node>, id: RoomId)
    ensures Get(Adjacency(edges, byId), id, []) == Outgoing(edges, byId, id)
    ensures id in Adjacency(edges, byId) <==> exists e :: e in edges && e.fromRoomId == id
  {
    if |edges| > 0 {
      var init := edges[..|edges| - 1];
      var e := edges[|edges| - 1];
      assert edges == init + [e];
      AdjacencyIsOutgoing(init, byId, id);
      OutgoingSnoc(init, e, byId, id);
      if id != e.fromRoomId && id in Adjacency(edges, byId) {
        var e' :| e' in init && e'.fromRoomId == id;
        assert e' in edges;
      }
    }
  }

  /** The destination shown for a door: the name of the room that carries its
      target id (the last one, should several), or the hex id when no room does. */
  lemma ConnectionTarget(nodes: seq<Node>, e: Edge)
    ensures e.toRoomId !in RoomIds(nodes) ==> ConnectionOf(e, NodeById(nodes)).to == e.toRoomIdHex
    ensures forall k :: 0 <= k < |nodes| && nodes[k].roomId == e.toRoomId && LastWithId(nodes, k) ==>
              ConnectionOf(e, NodeById(nodes)).to == nodes[k].name
  {
    NodeByIdSpec(nodes);
  }

  /* -------------------------------------------------------------- tooltips */

  /** The coloured `[cap]` tag after a capped connection. */
  function CapTag(cap: Option<string>): (r: string)
    ensures r == "" <==> !HasCap(cap)
    ensures HasCap(cap) ==> Strings.Contains(r, "[" + cap.value + "]")
    ensures HasCap(cap) && cap.value in DoorCapColors ==>
              Strings.Contains(r, "color:" + DoorCapColors[cap.value] + ";")
    ensures HasCap(cap) && cap.value !in DoorCapColors ==>
              Strings.Contains(r, "color:" + UnknownCapTagColor + ";")
  {
    if HasCap(cap) then
      var open, style := " <span style=\"", "color:" + Get(DoorCapColors, cap.value, UnknownCapTagColor) + ";";
      var bold, name, close := "font-weight:bold\">", "[" + cap.value + "]", "</span>";
      Strings.ContainsMiddle(open, style, bold + name + close);
      assert open + style + (bold + name + close) == open + style + bold + name + close;
      Strings.ContainsMiddle(open + style + bold, name, close);
      open + style + bold + name + close
    else ""
  }

  /** An unknown cap is drawn in the fallback line colour "#888" but tagged
      in the tooltip in white, "#fff". */
  lemma UnknownCapColours(e: Edge)
    requires HasCap(e.doorCapColor) && e.doorCapColor.value !in DoorCapColors
    ensures EdgeStyle(e).color == "#888"
    ensures Strings.Contains(CapTag(e.doorCapColor), "color:#fff;")
  {
    assert "color:" + UnknownCapTagColor + ";" == "color:#fff;";
  }

  /** One tooltip line: direction, arrow, escaped destination, cap tag and
      elevator suffix. */
  function ConnectionLine(c: Connection, escape: string -> string): string
  {
    c.dir + " \U{2192} " + escape(c.to) + CapTag(c.cap) + (if c.elevator then " (elevator)" else "")
  }

  /** The elevator flag contributes exactly the suffix " (elevator)". */
  lemma ElevatorSuffix(c: Connection, escape: string -> string)
    ensures ConnectionLine(c.(elevator := true), escape)
         == ConnectionLine(c.(elevator := false), escape) + " (elevator)"
  {
  }

  function Lines(conns: seq<Connection>, escape: string -> string): (r: seq<string>)
    ensures |r| == |conns|
    ensures forall i :: 0 <= i < |conns| ==> r[i] == ConnectionLine(conns[i], escape)
  {
    seq(|conns|, i requires 0 <= i < |conns| => ConnectionLine(conns[i], escape))
  }

  /** The tooltip heading: escaped name and area, hex id, map position,
      size, and a rule. */
  function Header(n: Node, escape: string -> string): (r: string)
    ensures |r| > 0 && r[0] == '<'
  {
    "<b>" + escape(n.name) + "</b><br>"
    + escape(n.areaName) + " | " + n.roomIdHex + "<br>"
    + "Map: (" + Strings.IntToString(n.mapX) + ", " + Strings.IntToString(n.mapY)
    + ") | Size: " + Strings.IntToString(n.widthScreens) + "x" + Strings.IntToString(n.heightScreens)
    + "<br>" + "<hr style=\"margin:4px 0\">"
  }

  /** The tooltip of room `n` with outgoing connections `conns`. The
      conditional expression covers the whole concatenation, so a room with
      no doors gets "No doors" and no heading at all. */
  function Tooltip(n: Node, conns: seq<Connection>, escape: string -> string): (r: string)
    ensures r == NoDoors <==> |conns| == 0
    ensures |conns| > 0 ==> Header(n, escape) <= r
  {
    if |conns| > 0 then
      var h := Header(n, escape);
      var r := h + Strings.Join("<br>", Lines(conns, escape));
      assert r[0] == h[0];
      r
    else NoDoors
  }

  /** One more door leaving a room adds exactly one line to its tooltip,
      after a "<br>" when there were lines already. */
  lemma TooltipAppend(n: Node, conns: seq<Connection>, c: Connection, escape: string -> string)
    ensures Tooltip(n, conns + [c], escape)
         == if |conns| == 0 then Header(n, escape) + ConnectionLine(c, escape)
            else Tooltip(n, conns, escape) + "<br>" + ConnectionLine(c, escape)
  {
    var ls := Lines(conns, escape);
    var l := ConnectionLine(c, escape);
    LinesSnoc(conns, c, escape);
    if |conns| == 0 {
      assert ls + [l] == [l];
    } else {
      Strings.JoinSnoc("<br>", ls, l);
      AppendLine(Header(n, escape), Strings.Join("<br>", ls), l);
    }
  }

  lemma LinesSnoc(conns: seq<Connection>, c: Connection, escape: string -> string)
    ensures Lines(conns + [c], escape) == Lines(conns, escape) + [ConnectionLine(c, escape)]
  {
  }

  lemma AppendLine(h: string, j: string, l: string)
    ensures h + (j + "<br>" + l) == (h + j) + "<br>" + l
  {
  }

  /* ----------------------------------------------------------- descriptors */

  /** The `js_nodes` entry of room `n`. */
  function Describe(n: Node, conns: seq<Connection>, escape: string -> string): NodeDesc
  {
    NodeDesc(
      n.roomId, n.name, n.areaName, Get(AreaColors, n.areaName, UnknownAreaColor),
      n.mapX * CellSize, n.mapY * CellSize, n.widthScreens, n.heightScreens,
      n.roomIdHex, Tooltip(n, conns, escape))
  }

  /** The `js_edges` entry of door `e`. The colour and width start plain; a
      cap sets the cap colour and width 2; an elevator then sets width 3. */
  function EdgeStyle(e: Edge): (r: EdgeDesc)
    ensures r.from == e.fromRoomId && r.to == e.toRoomId
    ensures r.cap == e.doorCapColor && r.dir == e.direction
    ensures r.width in {1, 2, 3}
    ensures r.width == 3 <==> e.isElevator
    ensures r.width == 2 <==> HasCap(e.doorCapColor) && !e.isElevator
    ensures r.width == 1 <==> !HasCap(e.doorCapColor) && !e.isElevator
    ensures r.color == PlainDoorColor <==> !HasCap(e.doorCapColor)
    ensures HasCap(e.doorCapColor) && e.doorCapColor.value in DoorCapColors ==>
              r.color == DoorCapColors[e.doorCapColor.value]
    ensures HasCap(e.doorCapColor) && e.doorCapColor.value !in DoorCapColors ==>
              r.color == UnknownCapLineColor
    // the overwrite order equals the "widest wins" combinator
    ensures r.width == MaxInt(if HasCap(e.doorCapColor) then 2 else 1, if e.isElevator then 3 else 1)
  {
    var (color0, width0) := (PlainDoorColor, 1);
    var (color1, width1) :=
      if HasCap(e.doorCapColor) then (Get(DoorCapColors, e.doorCapColor.value, UnknownCapLineColor), 2)
      else (color0, width0);
    var width2 := if e.isElevator then 3 else width1;
    EdgeDesc(e.fromRoomId, e.toRoomId, color1, width2, e.doorCapColor, e.direction)
  }

  function MinInt(a: int, b: int): int
  {
    if a <= b then a else b
  }

  function MaxInt(a: int, b: int): int
  {
    if a < b then b else a
  }

  /* --------------------------------------------------------- whole graph */

  /** `build_html`'s data transform: one room descriptor per room and one door
      descriptor per door, in input order. Each room's tooltip lists the doors
      leaving it, in input order. */
  function Build(g: NavGraph, escape: string -> string): (r: Rendered)
    ensures |r.nodes| == |g.nodes| && |r.edges| == |g.edges|
    ensures forall i :: 0 <= i < |g.edges| ==> r.edges[i] == EdgeStyle(g.edges[i])
  {
    var adj := Adjacency(g.edges, NodeById(g.nodes));
    Rendered(
      seq(|g.nodes|, i requires 0 <= i < |g.nodes| =>
            Describe(g.nodes[i], Get(adj, g.nodes[i].roomId, []), escape)),
      seq(|g.edges|, i requires 0 <= i < |g.edges| => EdgeStyle(g.edges[i])))
  }

  /** Room `i`'s descriptor is built from the doors leaving it, in input order. */
  lemma BuildRoom(g: NavGraph, escape: string -> string, i: int)
    requires 0 <= i < |g.nodes|
    ensures Build(g, escape).nodes[i]
         == Describe(g.nodes[i], Outgoing(g.edges, NodeById(g.nodes), g.nodes[i].roomId), escape)
  {
    AdjacencyIsOutgoing(g.edges, NodeById(g.nodes), g.nodes[i].roomId);
  }

  /** Each room descriptor sits at its map cell scaled by 40, in its area's
      colour (grey "#888" for an unknown area), and carries the room's fields. */
  lemma BuildRoomDescriptors(g: NavGraph, escape: string -> string, i: int)
    requires 0 <= i < |g.nodes|
    ensures var n := g.nodes[i]; var d := Build(g, escape).nodes[i];
            && d.id == n.roomId && d.name == n.name && d.area == n.areaName && d.hex == n.roomIdHex
            && d.x == n.mapX * 40 && d.y == n.mapY * 40
            && d.w == n.widthScreens && d.h == n.heightScreens
            && (n.areaName in AreaColors ==> d.color == AreaColors[n.areaName])
            && (n.areaName !in AreaColors ==> d.color == "#888")
  {
    BuildRoom(g, escape, i);
  }

  /** A room's tooltip is exactly "No doors" when no door leaves it, and
      otherwise begins with its heading. */
  lemma BuildTooltips(g: NavGraph, escape: string -> string, i: int)
    requires 0 <= i < |g.nodes|
    ensures var n := g.nodes[i]; var d := Build(g, escape).nodes[i];
            && (d.tooltip == "No doors" <==> forall e :: e in g.edges ==> e.fromRoomId != n.roomId)
            && ((exists e :: e in g.edges && e.fromRoomId == n.roomId) ==> Header(n, escape) <= d.tooltip)
  {
    BuildRoom(g, escape, i);
  }

  /** Door descriptors: one per door, nothing deduplicated or dropped, each
      naming its own endpoints (resolved or not), with width 1, 2 or 3. */
  lemma BuildDoorDescriptors(g: NavGraph, escape: string -> string, i: int)
    requires 0 <= i < |g.edges|
    ensures |Build(g, escape).edges| == |g.edges|
    ensures var e := g.edges[i]; var d := Build(g, escape).edges[i];
            && d.from == e.fromRoomId && d.to == e.toRoomId && d.cap == e.doorCapColor
            && d.dir == e.direction && d.width in {1, 2, 3}
            && (e.isElevator ==> d.width == 3)
            && (!HasCap(e.doorCapColor) ==> d.color == "#555")
  {
  }

  /** A two-room graph: Landing Site with one plain door right to Parlor. */
  const LandingSite: Node := Node(0x91F8, "Landing Site", "Crateria", "0x91F8", 0, 0, 9, 5)
  const Parlor: Node := Node(0x92FD, "Parlor", "Crateria", "0x92FD", 1, 0, 5, 5)
  const LandingToParlor: Edge := Edge(0x91F8, 0x92FD, "0x92FD", "right", None, None, false)

  const Example: NavGraph := NavGraph([LandingSite, Parlor], [LandingToParlor])

  lemma ExampleLookup()
    ensures NodeById(Example.nodes) == map[0x91F8 := LandingSite, 0x92FD := Parlor]
  {
    assert Example.nodes[..1] == [LandingSite] && [LandingSite][..0] == [];
    assert NodeById([LandingSite]) == map[0x91F8 := LandingSite];
  }

  lemma ExampleOutgoing()
    ensures Outgoing(Example.edges, NodeById(Example.nodes), LandingSite.roomId)
         == [Connection("Parlor", "right", None, None, false)]
    ensures Outgoing(Example.edges, NodeById(Example.nodes), Parlor.roomId) == []
  {
    ExampleLookup();
    assert Example.edges[1..] == [];
  }

  lemma ExampleTooltip(escape: string -> string)
    ensures Tooltip(LandingSite, [Connection("Parlor", "right", None, None, false)], escape)
         == Header(LandingSite, escape) + "right \U{2192} " + escape("Parlor")
  {
    var c := Connection("Parlor", "right", None, None, false);
    assert Lines([c], escape) == [ConnectionLine(c, escape)];
  }

  /** On that graph the door is drawn plain ("#555", width 1), Landing Site's
      tooltip lists "right → Parlor", and Parlor's is "No doors". */
  lemma TwoRoomExample(escape: string -> string)
    ensures |Build(Example, escape).nodes| == 2 && |Build(Example, escape).edges| == 1
    ensures Build(Example, escape).edges[0] == EdgeDesc(0x91F8, 0x92FD, "#555", 1, None, "right")
    ensures Build(Example, escape).nodes[0].tooltip
         == Header(LandingSite, escape) + "right \U{2192} " + escape("Parlor")
    ensures Build(Example, escape).nodes[1].tooltip == "No doors"
    ensures Build(Example, escape).nodes[0].color == "#4488cc" && Build(Example, escape).nodes[1].x == 40
  {
    ExampleOutgoing();
    ExampleTooltip(escape);
    BuildRoom(Example, escape, 0);
    BuildRoom(Example, escape, 1);
  }
}
