/**
 * The exported router: `addConnection`, `removeConnection` and `resetGraph`
 * over the single fabric graph, and `getMUXConnections`, which turns a route
 * into switch commands for the two multiplexers.
 */
module Router {
  import opened Strings
  import opened Addressing
  import opened Topology
  import opened Routing

  /** `${addingConnection}`. */
  function BoolText(b: bool): string {
    if b then "true" else "false"
  }

  /** `${pin1};${pin2};${addingConnection}`. */
  function SwitchText(pin1: string, pin2: string, addingConnection: bool): string {
    pin1 + ";" + pin2 + ";" + BoolText(addingConnection)
  }

  /** A command line: the multiplexer's code, then the switch text. */
  function Command(code: string, text: string): string {
    code + ";" + text
  }

  /** Both vertices are pins of the same multiplexer. */
  predicate SameMux(u: nat, v: nat) {
    u < 48 && v < 48 && u / 24 == v / 24
  }

  /** "1000" addresses MUX1 (vertices 0..23), "1001" MUX2. */
  function MuxCode(u: nat): string {
    if u < 24 then "1000" else "1001"
  }

  /**
   * The command for one hop of a route: a hop between two pins of the same
   * multiplexer closes (or opens) that crosspoint; any other hop is carried by a
   * wire and needs no command.
   */
  function HopCommand(u: nat, v: nat, addingConnection: bool): seq<string> {
    if SameMux(u, v) then [Command(MuxCode(u), SwitchText(SwitchPinLabel(u), SwitchPinLabel(v), addingConnection))]
    else []
  }

  /** The commands of a route, hop by hop from its start. */
  function MuxCommands(path: seq<nat>, addingConnection: bool): seq<string>
    decreases |path|
  {
    if |path| < 2 then [] else HopCommand(path[0], path[1], addingConnection) + MuxCommands(path[1..], addingConnection)
  }

  /** Extending a route by one vertex appends the command of the new last hop. */
  lemma {:induction false} MuxCommandsSnoc(path: seq<nat>, v: nat, addingConnection: bool)
    requires |path| >= 1
    ensures MuxCommands(path + [v], addingConnection)
         == MuxCommands(path, addingConnection) + HopCommand(path[|path| - 1], v, addingConnection)
    decreases |path|
  {
    var longer := path + [v];
    if |path| == 1 {
      assert longer[1..] == [v];
    } else {
      assert longer[0] == path[0] && longer[1] == path[1] && longer[1..] == path[1..] + [v];
      MuxCommandsSnoc(path[1..], v, addingConnection);
    }
  }

  /** The commands of one more hop of a route's prefix. */
  lemma PrefixCommands(path: seq<nat>, index: nat, addingConnection: bool)
    requires index + 1 < |path|
    ensures MuxCommands(path[..index + 2], addingConnection)
         == MuxCommands(path[..index + 1], addingConnection) + HopCommand(path[index], path[index + 1], addingConnection)
  {
    assert path[..index + 2] == path[..index + 1] + [path[index + 1]];
    MuxCommandsSnoc(path[..index + 1], path[index + 1], addingConnection);
  }

  /**
   * `getMUXConnections`: the labels of both ends of each hop are compared on
   * their first four characters, and the pin parts after the device name go into
   * the command; the result is exactly the hop-by-hop commands of the route.
   */
  method GetMuxConnections(path: seq<nat>, addingConnection: bool) returns (connections: seq<string>)
    ensures connections == MuxCommands(path, addingConnection)
  {
    connections := [];
    for index := 0 to |path|
      invariant connections == MuxCommands(path[..if index + 1 < |path| then index + 1 else |path|], addingConnection)
    {
      if index < |path| - 1 {
        var vertex, next := path[index], path[index + 1];
        var device1 := DeviceSpecification(vertex);
        var device2 := DeviceSpecification(next);
        HopByLabels(vertex, next, addingConnection);
        var device1Substr := device1[..4];
        var device2Substr := device2[..4];
        var pin1 := device1[5..];
        var pin2 := device2[5..];
        var text := SwitchText(pin1, pin2, addingConnection);
        ghost var before := connections;
        if device1Substr == "MUX1" && device1Substr == device2Substr {
          connections := connections + [Command("1000", text)];
        }
        if device1Substr == "MUX2" && device1Substr == device2Substr {
          connections := connections + [Command("1001", text)];
        }
        assert connections == before + LabelHop(device1, device2, addingConnection);
        PrefixCommands(path, index, addingConnection);
      }
    }
    assert path[..|path|] == path;
  }

  /** The commands one hop adds, as the labels are compared. */
  function LabelHop(device1: string, device2: string, addingConnection: bool): seq<string>
    requires |device1| >= 5 && |device2| >= 5
  {
    var text := SwitchText(device1[5..], device2[5..], addingConnection);
    (if device1[..4] == "MUX1" && device1[..4] == device2[..4] then [Command("1000", text)] else [])
    + (if device1[..4] == "MUX2" && device1[..4] == device2[..4] then [Command("1001", text)] else [])
  }

  /** Comparing label prefixes picks out exactly the hops inside one multiplexer. */
  lemma HopByLabels(u: nat, v: nat, addingConnection: bool)
    ensures |DeviceSpecification(u)| >= 5 && |DeviceSpecification(v)| >= 5
    ensures LabelHop(DeviceSpecification(u), DeviceSpecification(v), addingConnection) == HopCommand(u, v, addingConnection)
  {
    SpecificationShape(u);
    SpecificationShape(v);
    if u < 48 { MuxIndex(u); }
    if v < 48 { MuxIndex(v); }
  }

  /** A route between two breadboard pins of the fabric holds a command, and its first is for the hop after the start. */
  lemma BoardRouteCommands(path: seq<nat>, addingConnection: bool)
    requires IsSimplePath(Wiring(), path) && |path| >= 2
    requires IsBreadboardPin(path[0]) && IsBreadboardPin(path[|path| - 1])
    ensures |MuxCommands(path, addingConnection)| >= 1
    ensures |path| >= 3 && SameMux(path[1], path[2])
    ensures MuxCommands(path, addingConnection)[0]
         == Command(MuxCode(path[1]), SwitchText(SwitchPinLabel(path[1]), SwitchPinLabel(path[2]), addingConnection))
  {
    BoardPathCrossPoint(path);
    MuxIndex(path[1]);
    MuxIndex(path[2]);
    var tail := path[1..];
    assert tail[0] == path[1] && tail[1] == path[2];
    assert HopCommand(path[0], path[1], addingConnection) == [];
    assert MuxCommands(path, addingConnection) == MuxCommands(tail, addingConnection);
    var hop := HopCommand(path[1], path[2], addingConnection);
    assert |hop| == 1;
    assert MuxCommands(tail, addingConnection) == hop + MuxCommands(tail[1..], addingConnection);
  }

  /** Each vertex of a route replaced by its label. */
  function Labels(path: seq<nat>): (labels: seq<string>)
    ensures |labels| == |path|
  {
    seq(|path|, i requires 0 <= i < |path| => DeviceSpecification(path[i]))
  }

  const Arrow: string := " -> "

  /** `connections[0] += suffix`: on an empty list JavaScript reads `undefined` and stores one entry. */
  function AppendToFirst(connections: seq<string>, suffix: string): (r: seq<string>)
    ensures |r| == (if connections == [] then 1 else |connections|)
    ensures connections != [] ==> r[0] == connections[0] + suffix && r[1..] == connections[1..]
  {
    if connections == [] then ["undefined" + suffix] else [connections[0] + suffix] + connections[1..]
  }

  function NoPathMessage(startVertex: nat, endVertex: nat): string {
    "No path found from " + DeviceSpecification(startVertex) + " to " + DeviceSpecification(endVertex) + "."
  }

  /**
   * The part `addConnection` and `removeConnection` share once the route is
   * known: the labels joined by arrows, the commands with the end labels (read
   * back from the description) appended to the first, or the no-path message.
   */
  method Describe(path: seq<nat>, addingConnection: bool, startVertex: nat, endVertex: nat)
    returns (pathDescription: string, connections: seq<string>)
    ensures path == [] ==> pathDescription == NoPathMessage(startVertex, endVertex) && connections == []
    ensures path != [] ==> Split(pathDescription, Arrow) == Labels(path)
    ensures path != [] ==> connections == AppendToFirst(MuxCommands(path, addingConnection),
                              ";" + DeviceSpecification(path[0]) + ";" + DeviceSpecification(path[|path| - 1]))
  {
    connections := [];
    if |path| > 0 {
      var labels := Labels(path);
      pathDescription := Join(labels, Arrow);
      var commands := GetMuxConnections(path, addingConnection);
      connections := connections + commands;
      assert connections == commands;
      var splitPath := Split(pathDescription, Arrow);
      ReadBackLabels(path);
      assert splitPath == labels;
      var n := |path| - 1;
      LabelAtTrims(path, 0);
      LabelAtTrims(path, n);
      var first, last := splitPath[0], splitPath[|splitPath| - 1];
      assert Trim(first) == DeviceSpecification(path[0]);
      assert Trim(last) == DeviceSpecification(path[n]);
      connections := AppendToFirst(connections, ";" + Trim(first) + ";" + Trim(last));
    } else {
      pathDescription := NoPathMessage(startVertex, endVertex);
    }
  }

  /** Splitting the joined labels on the arrow gives the labels back: no label holds a '-'. */
  lemma ReadBackLabels(path: seq<nat>)
    requires |path| > 0
    ensures Split(Join(Labels(path), Arrow), Arrow) == Labels(path)
  {
    var labels := Labels(path);
    forall i | 0 <= i < |labels| ensures Free(labels[i], '-') {
      LabelFree(path[i]);
    }
    SplitJoin(labels, Arrow, 1, '-');
  }

  lemma LabelFree(v: nat)
    ensures Free(DeviceSpecification(v), '-')
  {
    SpecificationShape(v);
  }

  /** Every label of a path is left as it is by trimming. */
  lemma LabelAtTrims(path: seq<nat>, i: nat)
    requires i < |path|
    ensures Trim(Labels(path)[i]) == DeviceSpecification(path[i])
  {
    assert Labels(path)[i] == DeviceSpecification(path[i]);
    LabelTrims(path[i]);
  }

  /** A label starts with 'M' and ends in a digit, so trimming leaves it as it is. */
  lemma LabelTrims(v: nat)
    ensures Trim(DeviceSpecification(v)) == DeviceSpecification(v)
  {
    SpecificationShape(v);
    TrimNoop(DeviceSpecification(v));
  }

  /** The vertex of a breadboard pin name, as `parsePin` and `getGraphVertexID` compute it. */
  function PinVertexID(pin: string): (v: nat)
    requires IsPinName(pin)
    ensures 48 <= v < VertexCount && IsBreadboardPin(v)
    ensures DeviceSpecification(v) == ContactLabel(ParsePin(pin).0, P, ParsePin(pin).1)
  {
    PinVertex(pin);
    GetGraphVertexID(ParsePin(pin).0, P, ParsePin(pin).1) as nat
  }

  /** The fabric graph as the module builds it: the wiring of the board, with one flag per vertex. */
  ghost predicate IsFabric(graph: Graph)
    reads graph
  {
    graph.Valid() && graph.numberOfVertices == VertexCount && graph.adjacencyLists == Wiring()
  }

  /**
   * `addConnection`: route the two pins through free switch pins, reserve the
   * route, and report it together with the commands that close its crosspoints.
   * `route` is the path `findPath` returned.
   */
  method AddConnection(graph: Graph, connection: (string, string))
    returns (pathDescription: string, connections: seq<string>, ghost route: seq<nat>)
    requires IsFabric(graph) && IsPinName(connection.0) && IsPinName(connection.1)
    modifies graph.globalUsedPins
    ensures Reported(old(graph.globalUsedPins[..]), false, true,
                     PinVertexID(connection.0), PinVertexID(connection.1), route, pathDescription, connections)
    ensures forall v :: 0 <= v < VertexCount ==>
              graph.globalUsedPins[v] == (old(graph.globalUsedPins[v]) || (v in route && !IsBreadboardPin(v)))
  {
    var (startPin, endPin) := connection;
    var startVertex := PinVertexID(startPin);
    var endVertex := PinVertexID(endPin);
    pathDescription, connections, route := Reserve(graph, startVertex, endVertex);
  }

  /**
   * What a call reports about the route between the breadboard vertices `s` and `e`:
   * a route of the fabric under the flags `used` as they were, its labels joined
   * by arrows and the crosspoint commands with the end labels on the first; or,
   * when there is no route, the no-path message, no commands, and no walk from
   * `s` to `e` at all. Routing a pin to itself finds no route.
   */
  ghost predicate Reported(used: seq<bool>, ignoreUsedPins: bool, addingConnection: bool, s: nat, e: nat,
                           route: seq<nat>, pathDescription: string, connections: seq<string>)
  {
    && (route != [] ==>
          && Route(Wiring(), used, ignoreUsedPins, route, s, e)
          && Split(pathDescription, Arrow) == Labels(route)
          && |MuxCommands(route, addingConnection)| >= 1
          && connections == AppendToFirst(MuxCommands(route, addingConnection),
                                          ";" + DeviceSpecification(s) + ";" + DeviceSpecification(e)))
    && (route == [] ==>
          && pathDescription == NoPathMessage(s, e) && connections == []
          && (s == e || forall walk :: !EligibleWalk(Wiring(), used, ignoreUsedPins, walk, s, e)))
    && (s == e ==> route == [])
  }

  /** The body of `addConnection` once both pins are vertices: reserve a route and report it. */
  method Reserve(graph: Graph, startVertex: nat, endVertex: nat)
    returns (pathDescription: string, connections: seq<string>, ghost route: seq<nat>)
    requires IsFabric(graph) && IsBreadboardPin(startVertex) && IsBreadboardPin(endVertex)
    modifies graph.globalUsedPins
    ensures Reported(old(graph.globalUsedPins[..]), false, true, startVertex, endVertex, route, pathDescription, connections)
    ensures forall v :: 0 <= v < VertexCount ==>
              graph.globalUsedPins[v] == (old(graph.globalUsedPins[v]) || (v in route && !IsBreadboardPin(v)))
  {
    var path := graph.FindPath(startVertex, endVertex, false);
    route := path;
    if path != [] {
      BoardRouteCommands(path, true);
    }
    pathDescription, connections := Describe(path, true, startVertex, endVertex);
  }

  /**
   * `removeConnection`: search again between the two pins, ignoring the flags,
   * release the route found, and report it with the commands that open its crosspoints.
   */
  method RemoveConnection(graph: Graph, connection: (string, string))
    returns (pathDescription: string, connections: seq<string>, ghost route: seq<nat>)
    requires IsFabric(graph) && IsPinName(connection.0) && IsPinName(connection.1)
    modifies graph.globalUsedPins
    ensures Reported(old(graph.globalUsedPins[..]), true, false,
                     PinVertexID(connection.0), PinVertexID(connection.1), route, pathDescription, connections)
    ensures forall v :: 0 <= v < VertexCount ==>
              graph.globalUsedPins[v] == (old(graph.globalUsedPins[v]) && !(v in route && !IsBreadboardPin(v)))
  {
    var (startPin, endPin) := connection;
    var startVertex := PinVertexID(startPin);
    var endVertex := PinVertexID(endPin);
    pathDescription, connections, route := Release(graph, startVertex, endVertex);
  }

  /** The body of `removeConnection` once both pins are vertices: release a route and report it. */
  method Release(graph: Graph, startVertex: nat, endVertex: nat)
    returns (pathDescription: string, connections: seq<string>, ghost route: seq<nat>)
    requires IsFabric(graph) && IsBreadboardPin(startVertex) && IsBreadboardPin(endVertex)
    modifies graph.globalUsedPins
    ensures Reported(old(graph.globalUsedPins[..]), true, false, startVertex, endVertex, route, pathDescription, connections)
    ensures forall v :: 0 <= v < VertexCount ==>
              graph.globalUsedPins[v] == (old(graph.globalUsedPins[v]) && !(v in route && !IsBreadboardPin(v)))
  {
    var path := graph.RemovePath(startVertex, endVertex);
    route := path;
    if path != [] {
      BoardRouteCommands(path, false);
    }
    pathDescription, connections := Describe(path, false, startVertex, endVertex);
  }

  /** `resetGraph`: every pin is free again. */
  method ResetGraph(graph: Graph)
    requires graph.Valid()
    modifies graph.globalUsedPins
    ensures forall v :: 0 <= v < graph.numberOfVertices ==> !graph.globalUsedPins[v]
  {
    for v := 0 to graph.globalUsedPins.Length
      invariant forall u :: 0 <= u < v ==> !graph.globalUsedPins[u]
    {
      graph.globalUsedPins[v] := false;
    }
  }

  /** Resetting twice leaves the flags as one reset does: every pin free, the wiring untouched. */
  method ResetGraphTwice(graph: Graph)
    requires graph.Valid()
    modifies graph.globalUsedPins
    ensures forall v :: 0 <= v < graph.numberOfVertices ==> !graph.globalUsedPins[v]
    ensures graph.adjacencyLists == old(graph.adjacencyLists)
  {
    ResetGraph(graph);
    ResetGraph(graph);
  }
}
