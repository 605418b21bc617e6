# CableUndefinedWeb: a verified model of the wiring core

CableUndefinedWeb is a web front end for a programmable breadboard. Its core has
five parts, each modelled here in Dafny:

- **The wiring router** (`src/utils/pathfinding.ts`).
  - An 80-vertex graph covers two 24-pin multiplexers (16 X pins and 8 Y pins
    each), a 24-pin main breadboard and an 8-pin MCU breadboard.
  - Each multiplexer is a full X-by-Y crosspoint matrix. A fixed harness of 40
    wires joins the multiplexers to each other and to the breadboards.
  - `addConnection` turns two symbolic pins (`MCUH0`, `MAINA11`) into
    breadboard vertices. It then finds a route by breadth-first search through
    switch pins that are not yet in use, and marks the route used. It reports the
    route as a `" -> "` chain of labels, together with the `1000;…`/`1001;…`
    switch commands for every hop inside one multiplexer.
  - `removeConnection` searches again with the flags ignored and frees the route
    it finds. `resetGraph` frees every pin.
- **The prediction splitter** (`src/utils/predictions.ts`). `splitCodeResponse`
  cuts a model reply on its ```` ``` ```` fences into the text before, the
  language, the code and the text after.
- **The `wokwi` slice** (`src/redux/features/diagrams/wokwi-elements-slice.ts`).
  It holds the canvas elements and the grid flag, with reducers that append,
  replace, move, rename and delete elements by id.
- **The `diagrams` slice** (`src/redux/features/diagrams/diagrams-slice.ts`).
  It holds the diagrams and an index of their parts by diagram id, with
  `dragPart`, the fulfilled matchers of the diagram and part requests, and two
  selectors.
- **The pin validator** (`src/types/connections.ts`). This is the regular
  expression of `PinSchema` and the pair schema `ConnectionSchema`.

## How the model is organised

| file | module | what it holds |
|---|---|---|
| `wrappers.dfy` | `Wrappers` | `Option` |
| `strings.dfy` | `Strings` | the JavaScript string built-ins the core uses: number formatting in template literals, `parseInt`, `indexOf`, `split`, `join`, `trim`, with their round trips |
| `addressing.dfy` | `Addressing` | the vertex numbering `getGraphVertexID`, the labels `printDeviceSpecifications`, `isBreadboardPin`, the pin names of the `Pin` type and `parsePin` |
| `topology.dfy` | `Topology` | adjacency lists as values; `addEdge` as a function; the crosspoint edges; the harness table; and `Wiring()`, the lists as the construction leaves them |
| `graph.dfy` | `Routing` | `class Graph`, with the adjacency lists as a `seq` field and `globalUsedPins` as an `array<bool>`; `addEdge`, `findPath` (breadth-first search with `visited`/`parent` sequences and a ghost `depth`), `removePath`, and the construction loops |
| `router.dfy` | `Router` | `getMUXConnections` as a loop proved against the hop-by-hop function `MuxCommands`; `addConnection`, `removeConnection`, `resetGraph` |
| `predictions.dfy` | `Predictions` | `splitCodeResponse` and its reassembly properties |
| `connections.dfy` | `Connections` | a small regular-expression syntax tree with JavaScript `test` semantics, `PinSchema`, `ConnectionSchema` |
| `lists.dfy` | `Lists` | generic `find`, `findIndex`, `filter`-by-id, `map`-replace-by-id and "update the first match" |
| `wokwi_elements.dfy` | `WokwiElements` | `class WokwiState` with one method per reducer |
| `diagrams.dfy` | `Diagrams` | `class DiagramsState` with `dragPart`, the matchers and the selectors |

Where the code works in place, the model does too:

- the graph is a class;
- `globalUsedPins` is an array written element by element;
- the search, the read-back of the route, the release of the route, the reset
  and the command emitter are loops with invariants;
- the two slices are classes whose methods reassign their fields;
- the 40 literal `addEdge` calls of the harness block are written as one loop
  over the literal table `HarnessWires()`, whose entries are those calls in
  source order.

Each such method is proved against a specification function, or states its
property outright, and the lemmas beside it prove what the code promises
about that function.

The module-level `graph` of `pathfinding.ts` is passed to the entry points as
a parameter. `IsFabric(graph)` says it is the graph the module builds, and
`BuildFabric` proves that the construction yields exactly that graph.

Where the declared types and the code differ, the model follows the code:

- **The part key.** The `Part` type declares `_id`, but `dragPart` and
  `selectPartById` compare `part.id`. The model keys parts on `id`.
- **`selectPartById` on a missing diagram.** It reads `.find` of `undefined`
  when the diagram id is not a key, so it throws. `SelectPartById` returns
  `TypeError` in that case.
- **`dragPart` guard.** It tests `if (parts)`. An empty array is truthy, so the
  only no-op case is a missing key.
- **The first command line.** `connections[0] +=` on an empty list stores
  `"undefined;…"` (`AppendToFirst`). `BoardRouteCommands` proves this never
  happens for a route between two breadboard pins.

## Model

| member | source | states |
|---|---|---|
| Addressing.ContactOf | src/utils/pathfinding.ts:201-221 | every vertex below 80 is the number of exactly one contact: a multiplexer X or Y pin, or a breadboard pin |
| Addressing.VertexNumbering | src/utils/pathfinding.ts:201-221 | the numbering of a contact lies in [0,80) and `ContactOf` gives the contact back |
| Addressing.VertexIdInjective | src/utils/pathfinding.ts:201-221 | two contacts with the same vertex number are the same device, pin kind and index |
| Addressing.DescribesContact | src/utils/pathfinding.ts:223-246 | the label of a contact's vertex is `MUX{n+1} x{i}`/`MUX{n+1} y{k}`, `MainBreadboard {i}` or `MCUBreadboard {i}` |
| Addressing.SpecificationShape | src/utils/pathfinding.ts:223-246 | every label starts with `M` and ends in a digit, holds no `-`, and its first four characters are `MUX1` exactly for vertices 0..23 and `MUX2` exactly for 24..47 |
| Addressing.SpecificationInjective | src/utils/pathfinding.ts:223-246 | distinct vertices below 80 have distinct labels |
| Addressing.PinOf | src/utils/pathfinding.ts:13-20 | a pin name of the `Pin` type denotes a valid board, column and row, and that pin's name is the string |
| Addressing.PinNameRoundTrip | src/utils/pathfinding.ts:13-20 | the name of a valid pin is a pin name, and it parses back to the same pin |
| Addressing.ParsePin | src/utils/pathfinding.ts:281-302 | `parsePin` of a pin name gives a breadboard and a pin number within that board's 8 or 24 pins |
| Addressing.ParsePinOfPin | src/utils/pathfinding.ts:281-302 | the pin number is the row, plus 4 (MCU) or 12 (MAIN) for columns E to H |
| Addressing.ParsePinCollisions | src/utils/pathfinding.ts:281-302 | two valid pins parse to the same contact exactly when they share board, row and column half |
| Addressing.PinVertex | src/utils/pathfinding.ts:489-493 | the vertex of a parsed pin is a breadboard vertex in [48,80), labelled as its contact |
| Strings.NatToStringInjective | src/utils/pathfinding.ts:234-244 | the decimal form of a natural number in a template literal determines the number |
| Strings.ParseIntOfNatToString | src/utils/pathfinding.ts:291 | `parseInt` of a number's decimal form gives the number back |
| Strings.ParseInt | src/utils/pathfinding.ts:291 | `parseInt` gives `NaN` (`None`) exactly when the text does not start with a digit |
| Strings.IndexOf | src/utils/predictions.ts:2 | the first position of the separator, or -1 exactly when it does not occur |
| Strings.Split | src/utils/predictions.ts:2 | `split` gives at least one piece, one piece exactly when the separator is absent, and no piece holds the separator |
| Strings.JoinSplit | src/utils/predictions.ts:2 | joining the pieces of a split on the same separator gives the string back |
| Strings.SplitJoin | src/utils/pathfinding.ts:500-506 | splitting joined pieces gives the pieces back, when no piece holds a character the separator holds once |
| Strings.TrimNoop | src/utils/pathfinding.ts:508-510 | `trim` leaves a string that neither starts nor ends in whitespace unchanged |
| Topology.WithEdgeNeighbours | src/utils/pathfinding.ts:82-93 | after `addEdge(s, d)`, `v` is a neighbour of `u` exactly when it was before or `{u, v}` is `{s, d}` |
| Topology.WithEdgeKeepsSymmetry | src/utils/pathfinding.ts:82-93 | `addEdge` keeps the lists symmetric and naming only vertices of the graph |
| Topology.AddEdgesAppend | src/utils/pathfinding.ts:304-484 | adding two runs of edges one after the other is adding their concatenation |
| Topology.AddEdgesNeighbours | src/utils/pathfinding.ts:304-484 | after a run of `addEdge` calls, `v` is a neighbour of `u` exactly when it was before or the run holds the edge in either direction |
| Topology.MuxesUpToMembers | src/utils/pathfinding.ts:304-316 | the crosspoint loops add exactly the X-to-Y edges inside each multiplexer |
| Topology.CrossPointEdges | src/utils/pathfinding.ts:304-316 | the crosspoint edges join exactly an X pin and a Y pin of one multiplexer |
| Topology.HarnessTableIsWiring | src/utils/pathfinding.ts:318-484 | the 40 harness `addEdge` calls wire vertex `a` (for `a` below 40) to its harness partner, one wire each |
| Topology.HarnessMembers | src/utils/pathfinding.ts:318-484 | the harness holds `(u, v)` exactly when `u` is below 40 and `v` is its partner |
| Topology.HarnessPartnerRange | src/utils/pathfinding.ts:318-484 | harness partners lie in [40,80); vertex `a` goes to a multiplexer pin exactly when `a` is below 8 |
| Topology.WiringNeighbours | src/utils/pathfinding.ts:304-484 | in the built graph, `v` is a neighbour of `u` exactly when they form a crosspoint or a harness wire |
| Topology.WiringSymmetric | src/utils/pathfinding.ts:82-93 | the built lists are symmetric and name only vertices below 80 |
| Topology.MuxFullyConnected | src/utils/pathfinding.ts:304-316 | every X pin of a multiplexer is adjacent to all 8 of its Y pins, in both lists |
| Topology.BreadboardNeighbour | src/utils/pathfinding.ts:318-484 | every breadboard vertex has exactly one neighbour, a multiplexer pin (an X pin, or a MUX1 Y pin for the MCU board) whose harness partner it is |
| Topology.NoBoardToBoardEdge | src/utils/pathfinding.ts:318-484 | no edge joins two breadboard vertices |
| Topology.BoardPathCrossPoint | src/utils/pathfinding.ts:304-484 | a simple path between two breadboard vertices has at least three vertices, and its second hop is a crosspoint |
| Routing.Graph.constructor | src/utils/pathfinding.ts:77-80 | a new graph has empty lists and every flag false |
| Routing.Graph.AddEdge | src/utils/pathfinding.ts:82-93 | `addEdge` appends each end to the other's list, keeps the lists symmetric and leaves the flags alone |
| Routing.Graph.Search | src/utils/pathfinding.ts:113-152 | the search leaves a parent tree of eligible, adjacent vertices; it reports `found` only with `end` in the tree; it reports not found only when start equals end or no walk through enterable vertices joins them |
| Routing.Graph.ScanNeighbours | src/utils/pathfinding.ts:127-147 | one pass over the neighbours of the dequeued vertex keeps the tree and the queue invariants, and stops as soon as the end is reached |
| Routing.WalkStaysVisited | src/utils/pathfinding.ts:124-152 | once the visited set is closed under eligible neighbours, every walk from the start stays inside it |
| Routing.Graph.FindPath | src/utils/pathfinding.ts:108-168 | a non-empty result is a simple route from start to end along edges, each vertex after the start a breadboard pin or free (or flags ignored); an empty result means start equals end or no such walk exists; start equal to end gives the empty route; exactly the non-breadboard vertices of the route become used, and on failure no flag changes |
| Routing.ReadBack | src/utils/pathfinding.ts:154-167 | reading the parent chain back from the end, reversed, gives a route from start to end |
| Routing.Graph.RemovePath | src/utils/pathfinding.ts:170-187 | the search ignores the flags; the non-breadboard vertices of the route it returns become free, and no other flag changes |
| Routing.AddEdgeList | src/utils/pathfinding.ts:318-484 | calling `addEdge` on each wire of a table in order leaves the lists that the fold of the table gives |
| Routing.AddRow | src/utils/pathfinding.ts:309-314 | the innermost crosspoint loop adds the edges from X pin `j` to all 8 Y pins |
| Routing.AddMultiplexer | src/utils/pathfinding.ts:308-315 | the middle loop adds every crosspoint of one multiplexer |
| Routing.AddMultiplexers | src/utils/pathfinding.ts:307-316 | the outer loop adds every crosspoint of both multiplexers |
| Routing.AddHarness | src/utils/pathfinding.ts:318-484 | the harness block adds the 40 harness wires in order |
| Routing.BuildFabric | src/utils/pathfinding.ts:199 | the module's graph has 80 vertices, exactly the `Wiring()` lists, and every pin free |
| Router.GetMuxConnections | src/utils/pathfinding.ts:248-279 | the commands of a route are, in route order, one `1000;`/`1001;` line per hop inside MUX1/MUX2 with both pin labels and the flag, and none for any other hop |
| Router.HopByLabels | src/utils/pathfinding.ts:256-274 | comparing the first four characters of the two labels picks out exactly the hops inside one multiplexer, and the text after the device name is the pin label |
| Router.MuxCommandsSnoc | src/utils/pathfinding.ts:254-276 | extending a route by a vertex appends exactly the command of the new last hop |
| Router.BoardRouteCommands | src/utils/pathfinding.ts:499-510 | a route between two breadboard pins yields at least one command, and the first is for its first crosspoint |
| Router.ReadBackLabels | src/utils/pathfinding.ts:500-506 | splitting the arrow-joined labels of a route on the arrow gives its labels back |
| Router.LabelTrims | src/utils/pathfinding.ts:508-510 | trimming a label leaves it unchanged |
| Router.PinVertexID | src/utils/pathfinding.ts:489-493 | a pin name maps to a breadboard vertex labelled as its contact |
| Router.Describe | src/utils/pathfinding.ts:496-515 | with a route: its labels joined by arrows, and the commands with `;<start label>;<end label>` added to the first line only; without: the no-path message and no commands |
| Router.AddConnection | src/utils/pathfinding.ts:486-518 | either a route under the flags as they were, described and commanded as above, with exactly its switch pins now used; or, with no route (always so for two equal pins), the no-path message, no commands and no flag changed |
| Router.Reserve | src/utils/pathfinding.ts:495-517 | the search, the flag update and the report of `addConnection` once both pins are vertices |
| Router.RemoveConnection | src/utils/pathfinding.ts:520-554 | the route found with the flags ignored, described with the opening commands, with exactly its switch pins freed; or, with no route, the no-path message and no flag changed |
| Router.Release | src/utils/pathfinding.ts:530-553 | the search, the flag release and the report of `removeConnection` once both pins are vertices |
| Router.ResetGraph | src/utils/pathfinding.ts:556-559 | every flag is false afterwards |
| Router.ResetGraphTwice | src/utils/pathfinding.ts:556-559 | a second reset leaves the state one reset leaves, and the lists untouched |
| Predictions.SplitCodeResponse | src/utils/predictions.ts:1-24 | without a fence all four fields are empty; `beforeText` holds no fence and `language` holds no newline |
| Predictions.BeforeTextIsPrefix | src/utils/predictions.ts:2-12 | `beforeText` is the input up to the first fence |
| Predictions.Segment | src/utils/predictions.ts:14 | the fenced segment holds no fence |
| Predictions.LanguageAndCode | src/utils/predictions.ts:14-16 | the segment is `language`, then a newline and `code`; without a newline it is `language` alone and `code` is empty |
| Predictions.Reassembles | src/utils/predictions.ts:11-20 | with one fence `afterText` is empty and `beforeText + fence + segment` is the input; with more, `beforeText + fence + segment + fence + afterText` is the input |
| Predictions.SplitsComposedReply | src/utils/predictions.ts:1-24 | a reply written as text, fence, language line and code (no backticks, a one-line language) splits back into exactly those fields |
| Connections.PinSchemaAccepts | src/types/connections.ts:17-23 | the regular expression accepts a string exactly when it starts with an MCU pin name or ends with a MAIN pin name |
| Connections.PinNamesPass | src/types/connections.ts:17-23 | every `MCU[A-H][0-3]` and every `MAIN[A-H]` with row 0..11 is accepted |
| Connections.AcceptsAfterMcuPin | src/types/connections.ts:19 | anything may follow an MCU pin name |
| Connections.AcceptsBeforeMainPin | src/types/connections.ts:19 | anything may precede a MAIN pin name |
| Connections.RejectsRowsBeyondBoard | src/types/connections.ts:8-9 | `MCUA4` and `MAINA12`, which the row types admit, are rejected |
| Connections.ConnectionOfPins | src/types/connections.ts:25 | two pin names form a connection; a tuple of one or three strings does not |
| Connections.AnchoredAcceptsPinNames | src/types/connections.ts:19 | the expression anchored at both ends accepts exactly the pin names |
| Connections.AcceptsTextAfterMcuPin | src/types/connections.ts:19 | `MCUA0x` passes `PinSchema`, though it is no pin name and the anchored expression rejects it |
| Connections.AcceptsTextBeforeMainPin | src/types/connections.ts:19 | `xMAINA0` passes `PinSchema`, though it is no pin name and the anchored expression rejects it |
| Lists.FindIndex | src/redux/features/diagrams/diagrams-slice.ts:40 | `findIndex` is -1 exactly when no record has the id; otherwise it is the first position with the id |
| Lists.Find | src/redux/features/diagrams/diagrams-slice.ts:98-99 | `find` is undefined exactly when no record has the id; otherwise it is the record at the first position with the id |
| Lists.FindAtIndex | src/redux/features/diagrams/diagrams-slice.ts:38-44 | `find` returns the record at the index `findIndex` returns |
| Lists.UpdateFirstAt | src/redux/features/diagrams/wokwi-elements-slice.ts:38-46 | updating the first match is a point update at `findIndex`, and no change when the id is absent |
| Lists.FindAfterUpdateFirst | src/redux/features/diagrams/wokwi-elements-slice.ts:38-46 | when the update keeps the id, looking it up again finds the updated record |
| Lists.WithoutMembers | src/redux/features/diagrams/wokwi-elements-slice.ts:55-58 | the filter keeps exactly the records whose id differs |
| Lists.WithoutAppend | src/redux/features/diagrams/wokwi-elements-slice.ts:55-58 | the filter distributes over concatenation, so the survivors keep their order |
| Lists.ReplaceAllAt | src/redux/features/diagrams/diagrams-slice.ts:67-69 | position by position, a record with the id becomes the new one and every other stays |
| Lists.FindAfterReplaceAll | src/redux/features/diagrams/diagrams-slice.ts:67-69 | after the replacement, looking the id up finds the new record exactly when some record had the id |
| WokwiElements.WokwiState.constructor | src/redux/features/diagrams/wokwi-elements-slice.ts:19-22 | no elements, and the grid flag as stored |
| WokwiElements.WokwiState.ToggleGrid | src/redux/features/diagrams/wokwi-elements-slice.ts:28-31 | the grid flag is negated and the elements are unchanged |
| WokwiElements.ToggleGridTwice | src/redux/features/diagrams/wokwi-elements-slice.ts:28-31 | toggling twice restores the whole state |
| WokwiElements.WokwiState.SetElements | src/redux/features/diagrams/wokwi-elements-slice.ts:32-34 | the elements become the payload |
| WokwiElements.WokwiState.AddElement | src/redux/features/diagrams/wokwi-elements-slice.ts:35-37 | the payload is appended and the earlier elements stay |
| WokwiElements.WokwiState.DragElement | src/redux/features/diagrams/wokwi-elements-slice.ts:38-46 | the elements become `Dragged` of the old ones, and the grid flag stays |
| WokwiElements.DragChangesOnlyPosition | src/redux/features/diagrams/wokwi-elements-slice.ts:38-46 | only `x` and `y` of the first element with the id change; every other element and field stays; an absent id changes nothing |
| WokwiElements.DragTwice | src/redux/features/diagrams/wokwi-elements-slice.ts:38-46 | a second drag of the same element overrides the first |
| WokwiElements.WokwiState.EditElementName | src/redux/features/diagrams/wokwi-elements-slice.ts:47-54 | the elements become `Renamed` of the old ones, and the grid flag stays |
| WokwiElements.RenameChangesOnlyName | src/redux/features/diagrams/wokwi-elements-slice.ts:47-54 | only `name` of the first element with the id changes; an absent id changes nothing |
| WokwiElements.WokwiState.DeleteElement | src/redux/features/diagrams/wokwi-elements-slice.ts:55-58 | the elements become `Deleted` of the old ones, and the grid flag stays |
| WokwiElements.Deleted | src/redux/features/diagrams/wokwi-elements-slice.ts:55-58 | no element with the id remains |
| WokwiElements.DeleteKeepsOthersInOrder | src/redux/features/diagrams/wokwi-elements-slice.ts:55-58 | an element survives exactly when it was there with another id, and the survivors keep their order |
| WokwiElements.DeleteAbsentOrTwice | src/redux/features/diagrams/wokwi-elements-slice.ts:55-58 | deleting an absent id changes nothing; deleting twice is deleting once |
| WokwiElements.EditAfterDelete | src/redux/features/diagrams/wokwi-elements-slice.ts:38-58 | after a delete, dragging or renaming that id changes nothing |
| Diagrams.DiagramsState.constructor | src/redux/features/diagrams/diagrams-slice.ts:17-20 | no diagrams and an empty index |
| Diagrams.DiagramsState.DragPart | src/redux/features/diagrams/diagrams-slice.ts:26-46 | with the key missing nothing changes; otherwise only that key's parts change, to `DraggedParts` of them; the diagrams stay |
| Diagrams.DragPartChangesOnlyPosition | src/redux/features/diagrams/diagrams-slice.ts:37-45 | only `x` and `y` of the first part with the id change; a missing part changes nothing |
| Diagrams.SelectDraggedPart | src/redux/features/diagrams/diagrams-slice.ts:102-106 | looking a dragged part up again finds it at its new position |
| Diagrams.DiagramsState.GetDiagramsFulfilled | src/redux/features/diagrams/diagrams-slice.ts:49-61 | the diagrams become the payload and the index becomes the fold of the payload |
| Diagrams.PartsIndex | src/redux/features/diagrams/diagrams-slice.ts:53-59 | the keys of the index are exactly the ids of the diagrams |
| Diagrams.PartsIndexLastWins | src/redux/features/diagrams/diagrams-slice.ts:53-59 | each id maps to the parts of the last diagram with that id |
| Diagrams.DiagramsState.PartChangeFulfilled | src/redux/features/diagrams/diagrams-slice.ts:62-91 | the index maps the diagram's id to its parts, and the diagrams become the replace-by-id of the old ones |
| Diagrams.PartChangeReplacesDiagram | src/redux/features/diagrams/diagrams-slice.ts:62-91 | length and order stay; each diagram with the id becomes the new one, and every other stays; the lookup finds the new diagram exactly when one had the id; other keys of the index stay |
| Diagrams.PartChangeIdempotent | src/redux/features/diagrams/diagrams-slice.ts:62-91 | repeating a part change leaves the state as it was |
| Diagrams.DiagramsState.SelectDiagramById | src/redux/features/diagrams/diagrams-slice.ts:98-99 | undefined exactly when no diagram has the id; otherwise the diagram at the first position with that id |
| Diagrams.DiagramsState.SelectPartById | src/redux/features/diagrams/diagrams-slice.ts:102-106 | a `TypeError` exactly when the diagram id is not a key; otherwise the part at the first position with the id in that diagram's parts, or undefined exactly when none has it |

## Left out

- The example calls that run when `pathfinding.ts` is loaded
  (src/utils/pathfinding.ts:561-610) route and release pins on the shared graph.
  The model starts from the graph as the construction leaves it, with every pin
  free.
- `console.log` in `resetGraph` is output only and is left out. So are the
  `localStorage` read and write of the grid flag. The value read at start-up is
  the constructor's `storedShowGrid` parameter.
- The `Device`, `ConnectionNode`, `Multiplexer` and `Breadboard` classes are
  modelled as a small `Device` datatype. Their `x`/`y`/`pin` arrays are never
  read by the router.
- `Enumerate`/`IntRange` type machinery is left out: rows are bounded naturals.
- `parsePin` and `addConnection` are modelled on the strings of the `Pin` type
  only, which is what their signatures demand. A name outside it (`MCUE4`) would
  give a vertex off the graph. This is unreachable from correctly typed callers.
- `ParseInt` models `parseInt` on text that starts with its digits, which is all
  `parsePin` passes it. Leading whitespace, signs and radix prefixes are left out.
- `Routing.Graph.Search` does not prove that the route is a shortest one.
  Breadth-first search gives one, and no caller relies on it.
- `Routing.Graph.RemovePath` searches again with the flags ignored, exactly as
  written. The route it releases may differ from the one `addConnection`
  reserved. The contract states what is released, not that it is the reserved
  route.
- JavaScript numbers for positions, angles and versions are modelled as `real`.
  The reducers only copy them.
- `Diagrams.DiagramsState.PartChangeFulfilled` is one method for the three
  matchers of `addPart`, `updatePart` and `removePart`, because their bodies
  are identical.
- The selectors `getAllElements`, `getShowGrid`, `selectDiagrams` and
  `selectPartsByDiagramId` only read a field, so they are left out. The
  matchers' request plumbing (`matchFulfilled`) and the libraries
  (`createSlice`, Immer, zod) are outside the model. The reducers are methods
  on the state they update.
- The `z.string()` check of `PinSchema` and zod's error reporting are left out.
  The predicates take strings and sequences of strings.

## Findings

| source | as written | input that shows it | evidently intended | confidence | as-written member | corrected member |
|---|---|---|---|---|---|---|
| src/types/connections.ts:19 | `/^MCU[A-H][0-3]\|MAIN[A-H]([0-9]\|1[01])$/`: the alternation binds loosest, so `^` anchors only the MCU branch and `$` only the MAIN branch | `MCUA0x` and `xMAINA0` both pass `PinSchema` | the whole string is one pin name: `^(MCU[A-H][0-3]\|MAIN[A-H]([0-9]\|1[01]))$` | not executed | Connections.AcceptsTextAfterMcuPin | Connections.AnchoredAcceptsPinNames |

Elsewhere the model uses the anchored reading. `addConnection` and
`removeConnection` take pin names (`IsPinName`), and
`Connections.AnchoredAcceptsPinNames` proves that these are exactly the strings
the anchored expression accepts.
