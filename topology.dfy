/**
 * The fixed wiring of the fabric: the full X-by-Y crosspoint graph inside each
 * multiplexer and the hand-wired harness between the multiplexers and the two
 * breadboards, as adjacency lists built by successive `addEdge` calls.
 */
module Topology {
  import opened Addressing

  type Edge = (nat, nat)

  /** Every list entry of `adj` names a vertex of `adj`. */
  ghost predicate Closed(adj: seq<seq<nat>>) {
    forall u, v :: 0 <= u < |adj| && v in adj[u] ==> v < |adj|
  }

  /** `v` is a neighbour of `u` exactly when `u` is a neighbour of `v`. */
  ghost predicate Symmetric(adj: seq<seq<nat>>) {
    forall u, v :: 0 <= u < |adj| && 0 <= v < |adj| ==> (v in adj[u] <==> u in adj[v])
  }

  /** The lists after `addEdge(source, destination)`: each end is appended to the other's list. */
  function WithEdge(adj: seq<seq<nat>>, source: nat, destination: nat): (r: seq<seq<nat>>)
    requires source < |adj| && destination < |adj|
    ensures |r| == |adj|
  {
    var a := adj[source := adj[source] + [destination]];
    a[destination := a[destination] + [source]]
  }

  /** Adding an edge adds exactly its two directions to the neighbour relation. */
  lemma WithEdgeNeighbours(adj: seq<seq<nat>>, source: nat, destination: nat, u: nat, v: nat)
    requires source < |adj| && destination < |adj| && u < |adj|
    ensures v in WithEdge(adj, source, destination)[u]
        <==> v in adj[u] || (u == source && v == destination) || (u == destination && v == source)
  {
  }

  /** `addEdge` keeps the lists symmetric and within the vertex range. */
  lemma WithEdgeKeepsSymmetry(adj: seq<seq<nat>>, source: nat, destination: nat)
    requires source < |adj| && destination < |adj|
    requires Symmetric(adj) && Closed(adj)
    ensures Symmetric(WithEdge(adj, source, destination)) && Closed(WithEdge(adj, source, destination))
  {
    var r := WithEdge(adj, source, destination);
    forall u, v | 0 <= u < |r| && 0 <= v < |r| ensures v in r[u] <==> u in r[v] {
      WithEdgeNeighbours(adj, source, destination, u, v);
      WithEdgeNeighbours(adj, source, destination, v, u);
    }
    forall u, v | 0 <= u < |r| && v in r[u] ensures v < |r| {
      WithEdgeNeighbours(adj, source, destination, u, v);
    }
  }

  predicate EdgesWithin(edges: seq<Edge>, n: nat) {
    forall i :: 0 <= i < |edges| ==> edges[i].0 < n && edges[i].1 < n
  }

  /** The lists after adding `edges` in order. */
  function AddEdges(adj: seq<seq<nat>>, edges: seq<Edge>): (r: seq<seq<nat>>)
    requires EdgesWithin(edges, |adj|)
    ensures |r| == |adj|
    decreases |edges|
  {
    if edges == [] then adj
    else
      var last := edges[|edges| - 1];
      WithEdge(AddEdges(adj, edges[..|edges| - 1]), last.0, last.1)
  }

  lemma {:induction false} AddEdgesAppend(adj: seq<seq<nat>>, xs: seq<Edge>, ys: seq<Edge>)
    requires EdgesWithin(xs, |adj|) && EdgesWithin(ys, |adj|)
    ensures EdgesWithin(xs + ys, |adj|)
    ensures AddEdges(adj, xs + ys) == AddEdges(AddEdges(adj, xs), ys)
    decreases |ys|
  {
    if ys != [] {
      assert (xs + ys)[..|xs + ys| - 1] == xs + ys[..|ys| - 1];
      AddEdgesAppend(adj, xs, ys[..|ys| - 1]);
    } else {
      assert xs + ys == xs;
    }
  }

  /** After adding a list of edges, `v` neighbours `u` exactly when it did before or some edge joins them. */
  lemma {:induction false} AddEdgesNeighbours(adj: seq<seq<nat>>, edges: seq<Edge>, u: nat, v: nat)
    requires EdgesWithin(edges, |adj|) && u < |adj|
    ensures v in AddEdges(adj, edges)[u] <==> v in adj[u] || (u, v) in edges || (v, u) in edges
    decreases |edges|
  {
    if edges != [] {
      var init, last := edges[..|edges| - 1], edges[|edges| - 1];
      AddEdgesNeighbours(adj, init, u, v);
      WithEdgeNeighbours(AddEdges(adj, init), last.0, last.1, u, v);
      assert edges == init + [last];
    }
  }

  // The crosspoints inside each multiplexer, in the order the construction loops add them.

  const Multiplexers: seq<Device> := [Mux1, Mux2]

  function Vertex(device: Device, kind: PinKind, pinIndex: int): (v: nat)
    requires IsContact(device, kind, pinIndex)
    ensures v < VertexCount
  {
    VertexNumbering(device, kind, pinIndex);
    GetGraphVertexID(device, kind, pinIndex) as nat
  }

  /** The edges from X pin `j` of multiplexer `i` to its Y pins 0..7. */
  function RowEdges(i: nat, j: nat): seq<Edge>
    requires i < 2 && j < 16
  {
    seq(8, k requires 0 <= k < 8 => (Vertex(Multiplexers[i], X, j), Vertex(Multiplexers[i], Y, k)))
  }

  /** The edges of the X pins 0..j-1 of multiplexer `i`. */
  function RowsUpTo(i: nat, j: nat): seq<Edge>
    requires i < 2 && j <= 16
  {
    if j == 0 then [] else RowsUpTo(i, j - 1) + RowEdges(i, j - 1)
  }

  /** The crosspoint edges of the multiplexers 0..i-1. */
  function MuxesUpTo(i: nat): seq<Edge>
    requires i <= 2
  {
    if i == 0 then [] else MuxesUpTo(i - 1) + RowsUpTo(i - 1, 16)
  }

  /** One X pin and one Y pin of the same multiplexer. */
  predicate CrossPoint(u: nat, v: nat) {
    u < 48 && v < 48 && u / 24 == v / 24 && ((u % 24 < 16) != (v % 24 < 16))
  }

  lemma RowEdgesMembers(i: nat, j: nat, e: Edge)
    requires i < 2 && j < 16
    ensures e in RowEdges(i, j) <==> e.0 == 24 * i + j && 24 * i + 16 <= e.1 < 24 * i + 24
  {
    if e.0 == 24 * i + j && 24 * i + 16 <= e.1 < 24 * i + 24 {
      var k := e.1 - 24 * i - 16;
      assert RowEdges(i, j)[k] == e;
    }
  }

  lemma {:induction false} RowsUpToMembers(i: nat, j: nat, e: Edge)
    requires i < 2 && j <= 16
    ensures e in RowsUpTo(i, j) <==> 24 * i <= e.0 < 24 * i + j && 24 * i + 16 <= e.1 < 24 * i + 24
  {
    if j > 0 {
      RowsUpToMembers(i, j - 1, e);
      RowEdgesMembers(i, j - 1, e);
    }
  }

  /** `e` runs from an X pin to a Y pin of multiplexer `m`. */
  predicate InMux(m: nat, e: Edge) {
    24 * m <= e.0 < 24 * m + 16 && 24 * m + 16 <= e.1 < 24 * m + 24
  }

  lemma {:induction false} MuxesUpToMembers(i: nat, e: Edge)
    requires i <= 2
    ensures e in MuxesUpTo(i) <==> (0 < i && InMux(0, e)) || (1 < i && InMux(1, e))
  {
    if i > 0 {
      MuxesUpToMembers(i - 1, e);
      RowsUpToMembers(i - 1, 16, e);
    }
  }

  /** The crosspoint edges are exactly the X-to-Y pairs within one multiplexer. */
  lemma CrossPointEdges(u: nat, v: nat)
    ensures (u, v) in MuxesUpTo(2) || (v, u) in MuxesUpTo(2) <==> CrossPoint(u, v)
  {
    MuxesUpToMembers(2, (u, v));
    MuxesUpToMembers(2, (v, u));
    if u < 48 { MuxIndex(u); }
    if v < 48 { MuxIndex(v); }
  }

  lemma MuxIndex(u: nat)
    requires u < 48
    ensures u / 24 == (if u < 24 then 0 else 1) && u % 24 == (if u < 24 then u else u - 24)
  {
  }

  // The hand-wired harness.

  /** The harness as the fixed wiring block lists it, one entry per `addEdge` call, in order. */
  function HarnessWires(): seq<Edge> {
    [ // MUX1 X pins 0..7 to MUX2 Y pins 0..7
      (Vertex(Mux1, X, 0), Vertex(Mux2, Y, 0)), (Vertex(Mux1, X, 1), Vertex(Mux2, Y, 1)),
      (Vertex(Mux1, X, 2), Vertex(Mux2, Y, 2)), (Vertex(Mux1, X, 3), Vertex(Mux2, Y, 3)),
      (Vertex(Mux1, X, 4), Vertex(Mux2, Y, 4)), (Vertex(Mux1, X, 5), Vertex(Mux2, Y, 5)),
      (Vertex(Mux1, X, 6), Vertex(Mux2, Y, 6)), (Vertex(Mux1, X, 7), Vertex(Mux2, Y, 7)),
      // MUX1 X pins 8..15 to main breadboard pins 12..19
      (Vertex(Mux1, X, 8), Vertex(MainBreadboard, P, 12)), (Vertex(Mux1, X, 9), Vertex(MainBreadboard, P, 13)),
      (Vertex(Mux1, X, 10), Vertex(MainBreadboard, P, 14)), (Vertex(Mux1, X, 11), Vertex(MainBreadboard, P, 15)),
      (Vertex(Mux1, X, 12), Vertex(MainBreadboard, P, 16)), (Vertex(Mux1, X, 13), Vertex(MainBreadboard, P, 17)),
      (Vertex(Mux1, X, 14), Vertex(MainBreadboard, P, 18)), (Vertex(Mux1, X, 15), Vertex(MainBreadboard, P, 19)),
      // MUX1 Y pins 0..7 to MCU breadboard pins 0..7
      (Vertex(Mux1, Y, 0), Vertex(McuBreadboard, P, 0)), (Vertex(Mux1, Y, 1), Vertex(McuBreadboard, P, 1)),
      (Vertex(Mux1, Y, 2), Vertex(McuBreadboard, P, 2)), (Vertex(Mux1, Y, 3), Vertex(McuBreadboard, P, 3)),
      (Vertex(Mux1, Y, 4), Vertex(McuBreadboard, P, 4)), (Vertex(Mux1, Y, 5), Vertex(McuBreadboard, P, 5)),
      (Vertex(Mux1, Y, 6), Vertex(McuBreadboard, P, 6)), (Vertex(Mux1, Y, 7), Vertex(McuBreadboard, P, 7)),
      // MUX2 X pins 0..3 to main breadboard pins 20..23
      (Vertex(Mux2, X, 0), Vertex(MainBreadboard, P, 20)), (Vertex(Mux2, X, 1), Vertex(MainBreadboard, P, 21)),
      (Vertex(Mux2, X, 2), Vertex(MainBreadboard, P, 22)), (Vertex(Mux2, X, 3), Vertex(MainBreadboard, P, 23)),
      // MUX2 X pins 4..15 to main breadboard pins 0..11
      (Vertex(Mux2, X, 4), Vertex(MainBreadboard, P, 0)), (Vertex(Mux2, X, 5), Vertex(MainBreadboard, P, 1)),
      (Vertex(Mux2, X, 6), Vertex(MainBreadboard, P, 2)), (Vertex(Mux2, X, 7), Vertex(MainBreadboard, P, 3)),
      (Vertex(Mux2, X, 8), Vertex(MainBreadboard, P, 4)), (Vertex(Mux2, X, 9), Vertex(MainBreadboard, P, 5)),
      (Vertex(Mux2, X, 10), Vertex(MainBreadboard, P, 6)), (Vertex(Mux2, X, 11), Vertex(MainBreadboard, P, 7)),
      (Vertex(Mux2, X, 12), Vertex(MainBreadboard, P, 8)), (Vertex(Mux2, X, 13), Vertex(MainBreadboard, P, 9)),
      (Vertex(Mux2, X, 14), Vertex(MainBreadboard, P, 10)), (Vertex(Mux2, X, 15), Vertex(MainBreadboard, P, 11))
    ]
  }

  /** The far end of the harness wire at vertex `a` (the harness wires vertices 0..39, one wire each). */
  function HarnessPartner(a: nat): nat
    requires a < 40
  {
    if a < 8 then a + 40        // MUX1 x_a to MUX2 y_a
    else if a < 16 then a + 52  // MUX1 x_a to main breadboard pin a + 4
    else if a < 24 then a + 56  // MUX1 y_(a-16) to MCU breadboard pin a - 16
    else if a < 28 then a + 44  // MUX2 x_(a-24) to main breadboard pin a - 4
    else a + 20                 // MUX2 x_(a-24) to main breadboard pin a - 28
  }

  /** The harness table: wire `a` joins vertex `a` to its partner. */
  function HarnessTable(): seq<Edge> {
    seq(40, a requires 0 <= a < 40 => (a, HarnessPartner(a)))
  }

  /** Entry `a` of the harness table wires vertex `a` to its partner. */
  lemma HarnessTableShape()
    ensures |HarnessTable()| == 40
    ensures forall a :: 0 <= a < 40 ==> HarnessTable()[a] == (a, HarnessPartner(a))
  {
  }

  /** The table is the wiring block, wire for wire and in the same order. */
  lemma HarnessTableIsWiring()
    ensures HarnessWires() == HarnessTable()
  {
    var w, h := HarnessWires(), HarnessTable();
    assert |w| == |h|;
    forall a | 0 <= a < 40 ensures w[a] == h[a] {
      HarnessWire(a);
    }
  }

  lemma HarnessWire(a: nat)
    requires a < 40
    ensures HarnessWires()[a] == (a, HarnessPartner(a))
  {
  }

  lemma HarnessMembers(u: nat, v: nat)
    ensures (u, v) in HarnessTable() <==> u < 40 && v == HarnessPartner(u)
  {
    HarnessTableShape();
    if u < 40 && v == HarnessPartner(u) {
      assert HarnessTable()[u] == (u, v);
    }
  }

  // The whole fabric.

  /** Every edge of the fabric, in the order the construction adds them: crosspoints, then the harness. */
  function AllEdges(): seq<Edge> {
    MuxesUpTo(2) + HarnessTable()
  }

  lemma AllEdgesWithin()
    ensures EdgesWithin(AllEdges(), VertexCount)
  {
    var es := AllEdges();
    HarnessTableShape();
    forall i | 0 <= i < |es| ensures es[i].0 < VertexCount && es[i].1 < VertexCount {
      if i < |MuxesUpTo(2)| {
        assert es[i] in MuxesUpTo(2);
        MuxesUpToMembers(2, es[i]);
      } else {
        assert es[i] == HarnessTable()[i - |MuxesUpTo(2)|];
      }
    }
  }

  function EmptyLists(n: nat): (adj: seq<seq<nat>>)
    ensures |adj| == n && forall u :: 0 <= u < n ==> adj[u] == []
  {
    seq(n, _ => [])
  }

  /** The adjacency lists of the fabric, as the construction leaves them. */
  function Wiring(): (adj: seq<seq<nat>>)
    ensures |adj| == VertexCount
  {
    AllEdgesWithin();
    AddEdges(EmptyLists(VertexCount), AllEdges())
  }

  /** The neighbour relation of the fabric: crosspoints and harness wires. */
  predicate Linked(u: nat, v: nat) {
    || CrossPoint(u, v)
    || (u < 40 && v == HarnessPartner(u))
    || (v < 40 && u == HarnessPartner(v))
  }

  /** The fabric's adjacency lists hold exactly the crosspoints and the harness wires. */
  lemma WiringNeighbours(u: nat, v: nat)
    requires u < VertexCount
    ensures v in Wiring()[u] <==> Linked(u, v)
  {
    AllEdgesWithin();
    AddEdgesNeighbours(EmptyLists(VertexCount), AllEdges(), u, v);
    CrossPointEdges(u, v);
    HarnessMembers(u, v);
    HarnessMembers(v, u);
  }

  /** The fabric's lists are symmetric and stay within the 80 vertices. */
  lemma WiringSymmetric()
    ensures Closed(Wiring()) && Symmetric(Wiring())
  {
    forall u, v | 0 <= u < VertexCount && v in Wiring()[u] ensures v < VertexCount {
      WiringPairWithin(u, v);
    }
    forall u, v | 0 <= u < VertexCount && 0 <= v < VertexCount
      ensures v in Wiring()[u] <==> u in Wiring()[v]
    {
      WiringPairSymmetric(u, v);
    }
  }

  lemma WiringPairWithin(u: nat, v: nat)
    requires u < VertexCount && v in Wiring()[u]
    ensures v < VertexCount
  {
    WiringNeighbours(u, v);
    LinkedWithin(u, v);
  }

  lemma WiringPairSymmetric(u: nat, v: nat)
    requires u < VertexCount && v < VertexCount
    ensures v in Wiring()[u] <==> u in Wiring()[v]
  {
    WiringNeighbours(u, v);
    WiringNeighbours(v, u);
  }

  /** Linked vertices are both among the 80 vertices when one of them is. */
  lemma LinkedWithin(u: nat, v: nat)
    requires u < VertexCount && Linked(u, v)
    ensures v < VertexCount
  {
    if u < 40 { HarnessPartnerRange(u); }
    if v < 40 { HarnessPartnerRange(v); }
  }

  lemma HarnessPartnerRange(a: nat)
    requires a < 40
    ensures 40 <= HarnessPartner(a) < VertexCount
    ensures a < 8 <==> HarnessPartner(a) < 48
  {
  }

  /** Inside each multiplexer every X pin is wired to every Y pin. */
  lemma MuxFullyConnected(n: nat, j: nat, k: nat)
    requires n < 2 && j < 16 && k < 8
    ensures Vertex(Multiplexers[n], Y, k) in Wiring()[Vertex(Multiplexers[n], X, j)]
    ensures Vertex(Multiplexers[n], X, j) in Wiring()[Vertex(Multiplexers[n], Y, k)]
  {
    var x, y := Vertex(Multiplexers[n], X, j), Vertex(Multiplexers[n], Y, k);
    MuxIndex(x);
    MuxIndex(y);
    WiringNeighbours(x, y);
    WiringNeighbours(y, x);
  }

  /** The multiplexer pin a breadboard vertex is wired to. */
  function BoardPartner(b: nat): nat
    requires IsBreadboardPin(b)
  {
    if b < 60 then b - 20       // main pins 0..11 to MUX2 x4..x15
    else if b < 68 then b - 52  // main pins 12..19 to MUX1 x8..x15
    else if b < 72 then b - 44  // main pins 20..23 to MUX2 x0..x3
    else b - 56                 // MCU pins 0..7 to MUX1 y0..y7
  }

  /**
   * Every breadboard vertex has exactly one neighbour: a multiplexer pin (one
   * of 8..39, none of which carries a multiplexer-to-multiplexer wire) whose
   * harness partner it is.
   */
  lemma BreadboardNeighbour(b: nat, v: nat)
    requires IsBreadboardPin(b)
    ensures v in Wiring()[b] <==> v == BoardPartner(b)
    ensures 8 <= BoardPartner(b) < 40 && HarnessPartner(BoardPartner(b)) == b
  {
    WiringNeighbours(b, v);
    BoardPartnerInverse(b, v);
  }

  /** A breadboard vertex is linked to its board partner and to nothing else. */
  lemma BoardPartnerInverse(b: nat, v: nat)
    requires IsBreadboardPin(b)
    ensures Linked(b, v) <==> v == BoardPartner(b)
    ensures 8 <= BoardPartner(b) < 40 && HarnessPartner(BoardPartner(b)) == b
  {
  }

  /** No wire joins two breadboard vertices. */
  lemma NoBoardToBoardEdge(u: nat, v: nat)
    requires IsBreadboardPin(u) && IsBreadboardPin(v)
    ensures v !in Wiring()[u]
  {
    BreadboardNeighbour(u, v);
  }

  /** A path in `adj`: vertices in range, each next one a neighbour of the one before, none repeated. */
  ghost predicate IsSimplePath(adj: seq<seq<nat>>, path: seq<nat>) {
    && (forall i :: 0 <= i < |path| ==> path[i] < |adj|)
    && (forall i :: 0 <= i < |path| - 1 ==> path[i + 1] in adj[path[i]])
    && (forall i, j :: 0 <= i < j < |path| ==> path[i] != path[j])
  }

  /**
   * A simple path of the fabric between two breadboard vertices has at least
   * three vertices, and its second hop joins two pins of one multiplexer.
   */
  lemma BoardPathCrossPoint(path: seq<nat>)
    requires IsSimplePath(Wiring(), path) && |path| >= 2
    requires IsBreadboardPin(path[0]) && IsBreadboardPin(path[|path| - 1])
    ensures |path| >= 3 && CrossPoint(path[1], path[2])
  {
    var b, m := path[0], path[1];
    BreadboardNeighbour(b, m);
    assert m == BoardPartner(b) && !IsBreadboardPin(m);
    assert |path| >= 3;
    var w := path[2];
    WiringNeighbours(m, w);
    assert w != b;
    forall a: nat | a < 40 ensures HarnessPartner(a) != m {
      HarnessPartnerRange(a);
    }
  }
}
