/**
 The input of the navigation-graph visualiser: the room and door records of
 an exported map, already parsed from JSON, and the fixed colour tables.
 */
module Graph {

  datatype Option<T> = None | Some(value: T)

  type RoomId = int

  /** One room (`nodes` entry) of the exported graph. */
  datatype Node = Node(
    roomId: RoomId,
    name: string,
    areaName: string,
    roomIdHex: string,
    mapX: int,
    mapY: int,
    widthScreens: int,
    heightScreens: int)

  /** One door (`edges` entry): a directed connection between two rooms. */
  datatype Edge = Edge(
    fromRoomId: RoomId,
    toRoomId: RoomId,
    toRoomIdHex: string,
    direction: string,
    doorCapColor: Option<string>,
    requiredAbility: Option<string>,
    isElevator: bool)

  /** The parsed input document. */
  datatype NavGraph = NavGraph(nodes: seq<Node>, edges: seq<Edge>)

  /** Fill colour of each known area. */
  const AreaColors: map<string, string> := map[
    "Crateria" := "#4488cc",
    "Brinstar" := "#44aa44",
    "Norfair" := "#cc4422",
    "Wrecked Ship" := "#7766aa",
    "Maridia" := "#2299bb",
    "Tourian" := "#cc9922",
    "Ceres" := "#888888"
  ]

  /** Line colour of each known door cap. */
  const DoorCapColors: map<string, string> := map[
    "blue" := "#3880D0",
    "red" := "#D05050",
    "green" := "#40C048",
    "yellow" := "#D8C830",
    "grey" := "#808088"
  ]

  /** Python's `m.get(k, default)`. */
  function Get<K, V>(m: map<K, V>, k: K, default: V): V
  {
    if k in m then m[k] else default
  }

  /** A door has a cap when its `doorCapColor` is truthy in Python: neither
      null nor the empty string. */
  predicate HasCap(cap: Option<string>)
  {
    cap.Some? && cap.value != ""
  }
}
