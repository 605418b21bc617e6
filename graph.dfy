/**
 * The routing graph: adjacency lists over the fabric's vertices and the
 * `globalUsedPins` flags, with the breadth-first search that finds a route,
 * marks it used, and releases it again.
 */
module Routing {
  import opened Addressing
  import opened Topology

  /** `canVisit` without the visited test: flags are ignored, the vertex is free, or it is a breadboard pin. */
  ghost predicate Eligible(used: seq<bool>, ignoreUsedPins: bool, v: nat)
    requires v < |used|
  {
    ignoreUsedPins || !used[v] || IsBreadboardPin(v)
  }

  /** A walk from `start` to `end` whose every vertex after `start` may be entered. */
  ghost predicate EligibleWalk(adj: seq<seq<nat>>, used: seq<bool>, ignoreUsedPins: bool,
                               walk: seq<nat>, start: nat, end: nat)
  {
    && |walk| >= 1 && walk[0] == start && walk[|walk| - 1] == end
    && (forall i :: 0 <= i < |walk| ==> walk[i] < |adj| && walk[i] < |used|)
    && (forall i :: 0 <= i < |walk| - 1 ==> walk[i + 1] in adj[walk[i]])
    && (forall i :: 1 <= i < |walk| ==> Eligible(used, ignoreUsedPins, walk[i]))
  }

  /**
   * The search tree BFS leaves in `parent`: the start has no parent, and every
   * vertex with a parent is one step deeper than it, adjacent to it, eligible,
   * and its parent is the start or has a parent itself.
   */
  ghost predicate ParentTree(adj: seq<seq<nat>>, used: seq<bool>, ignoreUsedPins: bool,
                             parent: seq<int>, depth: seq<nat>, start: nat)
  {
    && |parent| == |adj| && |depth| == |adj| && |used| == |adj| && start < |adj|
    && parent[start] == -1 && depth[start] == 0
    && forall v :: 0 <= v < |parent| && parent[v] >= 0 ==>
         && parent[v] < |adj| && v in adj[parent[v]] && depth[v] == depth[parent[v]] + 1
         && Eligible(used, ignoreUsedPins, v)
         && (parent[v] == start || parent[parent[v]] >= 0)
  }

  /** Every vertex of a set whose eligible neighbours are all visited lies in the visited set. */
  lemma {:induction false} WalkStaysVisited(adj: seq<seq<nat>>, used: seq<bool>, ignoreUsedPins: bool,
                                            visited: seq<bool>, walk: seq<nat>, start: nat, end: nat, k: nat)
    requires |visited| == |adj| && start < |adj| && visited[start]
    requires EligibleWalk(adj, used, ignoreUsedPins, walk, start, end)
    requires forall u, w :: 0 <= u < |adj| && visited[u] && w in adj[u] && w < |used| && Eligible(used, ignoreUsedPins, w)
               ==> w < |visited| && visited[w]
    requires k < |walk|
    ensures visited[walk[k]]
  {
    if k > 0 {
      WalkStaysVisited(adj, used, ignoreUsedPins, visited, walk, start, end, k - 1);
      assert walk[k] in adj[walk[k - 1]];
    }
  }


  /**
   * What the search has built so far: every visited vertex but the start has a
   * parent, which is visited, adjacent, one step shallower, and the vertex is eligible.
   */
  ghost predicate TreeSoFar(adj: seq<seq<nat>>, used: seq<bool>, ignoreUsedPins: bool, start: nat,
                            visited: seq<bool>, parent: seq<int>, depth: seq<nat>)
  {
    && |visited| == |adj| && |parent| == |adj| && |depth| == |adj| && |used| == |adj| && start < |adj|
    && visited[start] && parent[start] == -1 && depth[start] == 0
    && (forall v :: 0 <= v < |adj| && v != start ==> (visited[v] <==> parent[v] >= 0))
    && (forall v :: 0 <= v < |adj| && parent[v] >= 0 ==>
          && parent[v] < |adj| && visited[parent[v]] && v in adj[parent[v]]
          && depth[v] == depth[parent[v]] + 1 && Eligible(used, ignoreUsedPins, v))
  }

  /**
   * The frontier: queued vertices are visited, distinct and unfinished; finished
   * vertices have all their eligible neighbours visited; every visited vertex is
   * finished, queued, or the one being expanded (`current`, or -1 between expansions).
   */
  ghost predicate Frontier(adj: seq<seq<nat>>, used: seq<bool>, ignoreUsedPins: bool,
                           visited: seq<bool>, queue: seq<nat>, done: set<nat>, current: int)
    requires |visited| == |adj| && |used| == |adj|
  {
    && (forall i :: 0 <= i < |queue| ==> queue[i] < |adj| && visited[queue[i]] && queue[i] !in done && queue[i] != current)
    && (forall i, j :: 0 <= i < j < |queue| ==> queue[i] != queue[j])
    && (forall u :: u in done ==> u < |adj| && visited[u])
    && (forall v :: 0 <= v < |adj| && visited[v] ==> v in done || v in queue || v == current)
    && (forall u, w :: u in done && w in adj[u] && w < |adj| && Eligible(used, ignoreUsedPins, w) ==> visited[w])
  }

  /** The vertices below `n`, as a set. */
  ghost function VertexSet(n: nat): set<nat>
  {
    if n == 0 then {} else VertexSet(n - 1) + {n - 1}
  }

  lemma VertexSetMembers(n: nat)
    ensures forall v: nat :: v in VertexSet(n) <==> v < n
  {
    if n > 0 {
      VertexSetMembers(n - 1);
      forall v: nat ensures v in VertexSet(n) <==> v < n {
        assert v in VertexSet(n) <==> v in VertexSet(n - 1) || v == n - 1;
      }
    }
  }

  lemma TreeIsParentTree(adj: seq<seq<nat>>, used: seq<bool>, ignoreUsedPins: bool, start: nat,
                         visited: seq<bool>, parent: seq<int>, depth: seq<nat>)
    requires TreeSoFar(adj, used, ignoreUsedPins, start, visited, parent, depth)
    ensures ParentTree(adj, used, ignoreUsedPins, parent, depth, start)
  {
    forall v | 0 <= v < |parent| && parent[v] >= 0
      ensures parent[v] == start || parent[parent[v]] >= 0
    {
      assert visited[parent[v]];
    }
  }

  lemma StartSearch(adj: seq<seq<nat>>, used: seq<bool>, ignoreUsedPins: bool, start: nat,
                    visited: seq<bool>, parent: seq<int>, depth: seq<nat>)
    requires |used| == |adj| && start < |adj|
    requires visited == seq(|adj|, v => v == start)
    requires parent == seq(|adj|, _ => -1) && depth == seq(|adj|, _ => 0)
    ensures TreeSoFar(adj, used, ignoreUsedPins, start, visited, parent, depth)
    ensures Frontier(adj, used, ignoreUsedPins, visited, [start], {}, -1)
  {
  }

  lemma Dequeue(adj: seq<seq<nat>>, used: seq<bool>, ignoreUsedPins: bool,
                visited: seq<bool>, queue: seq<nat>, done: set<nat>)
    requires |visited| == |adj| && |used| == |adj| && |queue| > 0
    requires Frontier(adj, used, ignoreUsedPins, visited, queue, done, -1)
    ensures queue[0] < |adj| && visited[queue[0]] && queue[0] !in done
    ensures Frontier(adj, used, ignoreUsedPins, visited, queue[1..], done, queue[0])
  {
    forall v | 0 <= v < |adj| && visited[v]
      ensures v in done || v in queue[1..] || v == queue[0]
    {
      if v in queue {
        var i :| 0 <= i < |queue| && queue[i] == v;
        if i > 0 { assert queue[1..][i - 1] == v; }
      }
    }
    forall i | 0 <= i < |queue[1..]|
      ensures queue[1..][i] != queue[0]
    {
      assert queue[1..][i] == queue[i + 1];
    }
  }

  lemma Visit(adj: seq<seq<nat>>, used: seq<bool>, ignoreUsedPins: bool, start: nat,
              visited: seq<bool>, parent: seq<int>, depth: seq<nat>,
              queue: seq<nat>, done: set<nat>, current: nat, next: nat)
    requires TreeSoFar(adj, used, ignoreUsedPins, start, visited, parent, depth)
    requires Frontier(adj, used, ignoreUsedPins, visited, queue, done, current)
    requires current < |adj| && visited[current] && next in adj[current]
    requires next < |adj| && !visited[next] && Eligible(used, ignoreUsedPins, next)
    ensures TreeSoFar(adj, used, ignoreUsedPins, start, visited[next := true],
                      parent[next := current], depth[next := depth[current] + 1])
    ensures Frontier(adj, used, ignoreUsedPins, visited[next := true], queue + [next], done, current)
  {
    var visited', queue' := visited[next := true], queue + [next];
    forall v | 0 <= v < |adj| && visited'[v]
      ensures v in done || v in queue' || v == current
    {
      if v == next { assert queue'[|queue|] == next; }
      else if v in queue { var i :| 0 <= i < |queue| && queue[i] == v; assert queue'[i] == v; }
    }
  }

  /** The first `index` neighbours are visited wherever they are eligible. */
  ghost predicate Scanned(used: seq<bool>, ignoreUsedPins: bool, visited: seq<bool>, neighbours: seq<nat>, index: nat)
  {
    && index <= |neighbours| && |visited| == |used|
    && (forall t :: 0 <= t < |neighbours| ==> neighbours[t] < |used|)
    && forall t :: 0 <= t < index && Eligible(used, ignoreUsedPins, neighbours[t]) ==> visited[neighbours[t]]
  }

  lemma ScanStep(used: seq<bool>, ignoreUsedPins: bool, visited: seq<bool>, visited': seq<bool>,
                 neighbours: seq<nat>, index: nat)
    requires Scanned(used, ignoreUsedPins, visited, neighbours, index) && index < |neighbours|
    requires |visited'| == |visited| && forall v :: 0 <= v < |visited| && visited[v] ==> visited'[v]
    requires Eligible(used, ignoreUsedPins, neighbours[index]) ==> visited'[neighbours[index]]
    ensures Scanned(used, ignoreUsedPins, visited', neighbours, index + 1)
  {
  }

  lemma Finish(adj: seq<seq<nat>>, used: seq<bool>, ignoreUsedPins: bool,
               visited: seq<bool>, queue: seq<nat>, done: set<nat>, current: nat, all: set<nat>)
    requires |visited| == |adj| && |used| == |adj|
    requires Frontier(adj, used, ignoreUsedPins, visited, queue, done, current)
    requires current < |adj| && visited[current] && current !in done
    requires done <= all && current in all
    requires Scanned(used, ignoreUsedPins, visited, adj[current], |adj[current]|)
    ensures Frontier(adj, used, ignoreUsedPins, visited, queue, done + {current}, -1)
    ensures done + {current} <= all && all - (done + {current}) < all - done
  {
    assert current in all - done;
    forall w | w in adj[current] && w < |adj| && Eligible(used, ignoreUsedPins, w)
      ensures visited[w]
    {
      var t :| 0 <= t < |adj[current]| && adj[current][t] == w;
    }
  }

  lemma Exhausted(adj: seq<seq<nat>>, used: seq<bool>, ignoreUsedPins: bool,
                  visited: seq<bool>, done: set<nat>)
    requires |visited| == |adj| && |used| == |adj|
    requires Frontier(adj, used, ignoreUsedPins, visited, [], done, -1)
    ensures forall u, w :: 0 <= u < |adj| && visited[u] && w in adj[u] && w < |used| && Eligible(used, ignoreUsedPins, w)
              ==> w < |visited| && visited[w]
  {
    forall u, w | 0 <= u < |adj| && visited[u] && w in adj[u] && w < |used| && Eligible(used, ignoreUsedPins, w)
      ensures visited[w]
    {
      assert u in done;
    }
  }

  class Graph {
    const numberOfVertices: nat
    var adjacencyLists: seq<seq<nat>>
    var globalUsedPins: array<bool>

    /** The lists cover the vertices, name only vertices, and are symmetric; one flag per vertex. */
    ghost predicate Valid()
      reads this
    {
      && |adjacencyLists| == numberOfVertices
      && globalUsedPins.Length == numberOfVertices
      && Closed(adjacencyLists) && Symmetric(adjacencyLists)
    }

    constructor (numberOfVertices: nat)
      ensures Valid() && fresh(globalUsedPins)
      ensures this.numberOfVertices == numberOfVertices
      ensures adjacencyLists == EmptyLists(numberOfVertices)
      ensures forall v :: 0 <= v < numberOfVertices ==> !globalUsedPins[v]
    {
      this.numberOfVertices := numberOfVertices;
      adjacencyLists := EmptyLists(numberOfVertices);
      globalUsedPins := new bool[numberOfVertices](_ => false);
    }

    /** `addEdge`: append each end to the other's list. */
    method AddEdge(source: nat, destination: nat)
      requires Valid() && source < numberOfVertices && destination < numberOfVertices
      modifies this
      ensures Valid() && globalUsedPins == old(globalUsedPins)
      ensures adjacencyLists == WithEdge(old(adjacencyLists), source, destination)
    {
      WithEdgeKeepsSymmetry(adjacencyLists, source, destination);
      var lists := adjacencyLists[source := adjacencyLists[source] + [destination]];
      adjacencyLists := lists[destination := lists[destination] + [source]];
    }

    /**
     * The breadth-first search of `findPath`, up to the point where the route is
     * read back: whether `endVertex` was reached, and the parent of every vertex reached.
     */
    method Search(startVertex: nat, endVertex: nat, ignoreUsedPins: bool)
      returns (found: bool, parent: seq<int>, ghost depth: seq<nat>)
      requires Valid() && startVertex < numberOfVertices && endVertex < numberOfVertices
      ensures |parent| == numberOfVertices
      ensures ParentTree(adjacencyLists, globalUsedPins[..], ignoreUsedPins, parent, depth, startVertex)
      ensures found ==> endVertex != startVertex && parent[endVertex] >= 0
      ensures !found ==> endVertex == startVertex
                         || forall walk :: !EligibleWalk(adjacencyLists, globalUsedPins[..], ignoreUsedPins, walk, startVertex, endVertex)
    {
      var n := numberOfVertices;
      var adj := adjacencyLists;
      ghost var used := globalUsedPins[..];
      var visited := seq(n, _ => false);
      parent := seq(n, _ => -1);
      depth := seq(n, _ => 0);
      var queue: seq<nat> := [];
      ghost var done: set<nat> := {};
      ghost var all: set<nat> := VertexSet(n);
      VertexSetMembers(n);

      visited := visited[startVertex := true];
      queue := queue + [startVertex];
      found := false;
      assert visited == seq(n, v => v == startVertex);
      StartSearch(adj, used, ignoreUsedPins, startVertex, visited, parent, depth);

      while |queue| > 0 && !found
        invariant TreeSoFar(adj, used, ignoreUsedPins, startVertex, visited, parent, depth)
        invariant !found ==> Frontier(adj, used, ignoreUsedPins, visited, queue, done, -1)
        invariant done <= all
        invariant found ==> endVertex != startVertex && parent[endVertex] >= 0
        invariant visited[endVertex] && endVertex != startVertex ==> found
        decreases all - done, if found then 0 else 1
      {
        var current := queue[0];
        Dequeue(adj, used, ignoreUsedPins, visited, queue, done);
        queue := queue[1..];
        found, visited, parent, depth, queue :=
          ScanNeighbours(startVertex, endVertex, ignoreUsedPins, current, used, visited, parent, depth, queue, done);
        if !found {
          Finish(adj, used, ignoreUsedPins, visited, queue, done, current, all);
          done := done + {current};
        }
      }

      TreeIsParentTree(adj, used, ignoreUsedPins, startVertex, visited, parent, depth);
      if !found && endVertex != startVertex {
        Exhausted(adj, used, ignoreUsedPins, visited, done);
        forall walk | EligibleWalk(adj, used, ignoreUsedPins, walk, startVertex, endVertex)
          ensures false
        {
          WalkStaysVisited(adj, used, ignoreUsedPins, visited, walk, startVertex, endVertex, |walk| - 1);
        }
      }
    }

    /**
     * One round of the search's `while` loop: the `for` over the neighbours of
     * `current`, which visits and enqueues every neighbour `canVisit` admits and
     * stops as soon as `endVertex` is reached.
     */
    method ScanNeighbours(startVertex: nat, endVertex: nat, ignoreUsedPins: bool, current: nat, ghost used: seq<bool>,
                          visited0: seq<bool>, parent0: seq<int>, ghost depth0: seq<nat>,
                          queue0: seq<nat>, ghost done: set<nat>)
      returns (found: bool, visited: seq<bool>, parent: seq<int>, ghost depth: seq<nat>, queue: seq<nat>)
      requires Valid() && startVertex < numberOfVertices && endVertex < numberOfVertices
      requires used == globalUsedPins[..]
      requires TreeSoFar(adjacencyLists, used, ignoreUsedPins, startVertex, visited0, parent0, depth0)
      requires Frontier(adjacencyLists, used, ignoreUsedPins, visited0, queue0, done, current)
      requires current < numberOfVertices && visited0[current] && current !in done
      requires endVertex == startVertex || !visited0[endVertex]
      ensures TreeSoFar(adjacencyLists, used, ignoreUsedPins, startVertex, visited, parent, depth)
      ensures found ==> endVertex != startVertex && parent[endVertex] >= 0
      ensures !found ==> visited[current] && Frontier(adjacencyLists, used, ignoreUsedPins, visited, queue, done, current)
      ensures !found ==> Scanned(used, ignoreUsedPins, visited, adjacencyLists[current], |adjacencyLists[current]|)
      ensures !found ==> endVertex == startVertex || !visited[endVertex]
    {
      var n := numberOfVertices;
      var adj := adjacencyLists;
      visited, parent, depth, queue := visited0, parent0, depth0, queue0;
      found := false;
      var adjacentVertices := adj[current];
      assert forall t :: 0 <= t < |adjacentVertices| ==> adjacentVertices[t] in adj[current];
      var index := 0;
      while index < |adjacentVertices|
        invariant 0 <= index <= |adjacentVertices| && !found
        invariant forall t :: 0 <= t < |adjacentVertices| ==> adjacentVertices[t] < n
        invariant TreeSoFar(adj, used, ignoreUsedPins, startVertex, visited, parent, depth)
        invariant Frontier(adj, used, ignoreUsedPins, visited, queue, done, current)
        invariant visited[current]
        invariant Scanned(used, ignoreUsedPins, visited, adjacentVertices, index)
        invariant endVertex == startVertex || !visited[endVertex]
      {
        var adjacentVertex := adjacentVertices[index];
        var canVisit := if ignoreUsedPins then !visited[adjacentVertex]
                        else !visited[adjacentVertex] && (!globalUsedPins[adjacentVertex] || IsBreadboardPin(adjacentVertex));
        ghost var visited1 := visited;
        if canVisit {
          Visit(adj, used, ignoreUsedPins, startVertex, visited, parent, depth, queue, done, current, adjacentVertex);
          parent := parent[adjacentVertex := current];
          visited := visited[adjacentVertex := true];
          depth := depth[adjacentVertex := depth[current] + 1];
          queue := queue + [adjacentVertex];
          if adjacentVertex == endVertex {
            found := true;
            return;
          }
          assert visited[endVertex] == visited1[endVertex];
        }
        ScanStep(used, ignoreUsedPins, visited1, visited, adjacentVertices, index);
        index := index + 1;
      }
    }

    /**
     * `findPath`: the route the search found, from `startVertex` to `endVertex`,
     * with every vertex on it that is not a breadboard pin marked used; the empty
     * route, with the flags untouched, when the search did not reach `endVertex`.
     */
    method FindPath(startVertex: nat, endVertex: nat, ignoreUsedPins: bool) returns (path: seq<nat>)
      requires Valid() && startVertex < numberOfVertices && endVertex < numberOfVertices
      modifies globalUsedPins
      ensures path != [] ==> Route(adjacencyLists, old(globalUsedPins[..]), ignoreUsedPins, path, startVertex, endVertex)
      ensures path == [] ==> startVertex == endVertex
                             || forall walk :: !EligibleWalk(adjacencyLists, old(globalUsedPins[..]), ignoreUsedPins, walk, startVertex, endVertex)
      ensures startVertex == endVertex ==> path == []
      ensures forall v :: 0 <= v < numberOfVertices ==>
                globalUsedPins[v] == (old(globalUsedPins[v]) || (v in path && !IsBreadboardPin(v)))
    {
      ghost var used := globalUsedPins[..];
      var found, parent, depth := Search(startVertex, endVertex, ignoreUsedPins);
      if !found {
        return [];
      }
      // `findPath` pushes each vertex and reverses at the end; prepending builds the same sequence.
      path := [];
      var currentVertex: int := endVertex;
      while currentVertex >= 0
        invariant -1 <= currentVertex < numberOfVertices
        invariant Chain(parent, depth, path, currentVertex, startVertex, endVertex)
        invariant forall v :: 0 <= v < numberOfVertices ==>
                    globalUsedPins[v] == (used[v] || (v in path && !IsBreadboardPin(v)))
        decreases if currentVertex >= 0 then depth[currentVertex] + 1 else 0
      {
        ChainStep(adjacencyLists, used, ignoreUsedPins, parent, depth, path, currentVertex, startVertex, endVertex);
        path := [currentVertex] + path;
        if !IsBreadboardPin(currentVertex) {
          globalUsedPins[currentVertex] := true;
        }
        currentVertex := parent[currentVertex];
      }
      ReadBack(adjacencyLists, used, ignoreUsedPins, parent, depth, path, startVertex, endVertex);
    }

    /**
     * `removePath`: search again ignoring the flags, and clear the flag of every
     * vertex on the route found that is not a breadboard pin.
     */
    method RemovePath(startVertex: nat, endVertex: nat) returns (path: seq<nat>)
      requires Valid() && startVertex < numberOfVertices && endVertex < numberOfVertices
      modifies globalUsedPins
      ensures path != [] ==> Route(adjacencyLists, old(globalUsedPins[..]), true, path, startVertex, endVertex)
      ensures path == [] ==> startVertex == endVertex
                             || forall walk :: !EligibleWalk(adjacencyLists, old(globalUsedPins[..]), true, walk, startVertex, endVertex)
      ensures startVertex == endVertex ==> path == []
      ensures forall v :: 0 <= v < numberOfVertices ==>
                globalUsedPins[v] == (old(globalUsedPins[v]) && !(v in path && !IsBreadboardPin(v)))
    {
      path := FindPath(startVertex, endVertex, true);
      if |path| > 0 {
        ghost var marked := globalUsedPins[..];
        for i := 0 to |path| - 1
          invariant forall v :: 0 <= v < numberOfVertices ==>
                      globalUsedPins[v] == (marked[v] && !(v in path[..i] && !IsBreadboardPin(v)))
        {
          if !IsBreadboardPin(path[i]) {
            globalUsedPins[path[i]] := false;
          }
          assert path[..i + 1] == path[..i] + [path[i]];
        }
        // The last vertex of the route is released as well.
        if !IsBreadboardPin(path[|path| - 1]) {
          globalUsedPins[path[|path| - 1]] := false;
        }
        assert path == path[..|path| - 1] + [path[|path| - 1]];
      }
    }
  }

  /** A route the search may return: at least two vertices, from `start` to `end`, simple, every vertex after the start eligible. */
  ghost predicate Route(adj: seq<seq<nat>>, used: seq<bool>, ignoreUsedPins: bool, path: seq<nat>, start: nat, end: nat)
  {
    && |path| >= 2 && path[0] == start && path[|path| - 1] == end
    && IsSimplePath(adj, path)
    && (forall i :: 0 <= i < |path| ==> path[i] < |used|)
    && forall i :: 1 <= i < |path| ==> Eligible(used, ignoreUsedPins, path[i])
  }

  /**
   * The state of the read-back loop: `path` is the chain of parents from
   * `current`'s child down to `end`, each vertex one step deeper than the one before.
   */
  ghost predicate Chain(parent: seq<int>, depth: seq<nat>, path: seq<nat>, current: int, start: nat, end: nat)
  {
    && |depth| == |parent| && -1 <= current < |parent| && end < |parent|
    && (forall i :: 0 <= i < |path| ==> path[i] < |parent|)
    && (|path| == 0 ==> current == end)
    && (|path| > 0 ==> path[|path| - 1] == end && current == parent[path[0]])
    && (forall i :: 0 <= i < |path| ==> path[i] == start || parent[path[i]] >= 0)
    && (forall i :: 0 <= i < |path| ==> depth[path[i]] + (|path| - 1 - i) == depth[end])
    && (forall i :: 0 <= i < |path| - 1 ==> parent[path[i + 1]] == path[i])
    && (current >= 0 ==> (current == start || parent[current] >= 0) && depth[current] + |path| == depth[end])
  }

  lemma ChainStep(adj: seq<seq<nat>>, used: seq<bool>, ignoreUsedPins: bool,
                  parent: seq<int>, depth: seq<nat>, path: seq<nat>, current: nat, start: nat, end: nat)
    requires ParentTree(adj, used, ignoreUsedPins, parent, depth, start)
    requires Chain(parent, depth, path, current, start, end)
    ensures parent[current] >= 0 ==> depth[parent[current]] < depth[current]
    ensures Chain(parent, depth, [current] + path, parent[current], start, end)
  {
    var path' := [current] + path;
    forall i | 0 <= i < |path'| - 1
      ensures parent[path'[i + 1]] == path'[i]
    {
      if i > 0 { assert path'[i + 1] == path[i]; }
    }
  }

  /** The chain of parents read back from the end vertex is a route from the start. */
  lemma ReadBack(adj: seq<seq<nat>>, used: seq<bool>, ignoreUsedPins: bool,
                 parent: seq<int>, depth: seq<nat>, path: seq<nat>, start: nat, end: nat)
    requires ParentTree(adj, used, ignoreUsedPins, parent, depth, start)
    requires Chain(parent, depth, path, -1, start, end)
    requires end != start && parent[end] >= 0
    ensures Route(adj, used, ignoreUsedPins, path, start, end)
  {
    assert path[0] == start;
    forall i | 0 <= i < |path| - 1
      ensures path[i + 1] in adj[path[i]]
    {
      assert parent[path[i + 1]] >= 0;
    }
    forall i, j | 0 <= i < j < |path|
      ensures path[i] != path[j]
    {
      assert depth[path[i]] < depth[path[j]];
    }
    forall i | 1 <= i < |path|
      ensures Eligible(used, ignoreUsedPins, path[i])
    {
      assert parent[path[i]] == path[i - 1];
    }
  }

  // Building the fabric.

  lemma AddOne(adj: seq<seq<nat>>, edges: seq<Edge>, e: Edge)
    requires EdgesWithin(edges, |adj|) && e.0 < |adj| && e.1 < |adj|
    ensures EdgesWithin(edges + [e], |adj|)
    ensures AddEdges(adj, edges + [e]) == WithEdge(AddEdges(adj, edges), e.0, e.1)
  {
    assert (edges + [e])[..|edges|] == edges;
  }

  lemma HarnessWithin()
    ensures EdgesWithin(HarnessTable(), VertexCount)
  {
    HarnessTableShape();
    forall a | 0 <= a < 40 ensures HarnessPartner(a) < VertexCount {
      HarnessPartnerRange(a);
    }
  }

  /** The fixed wiring block: one `addEdge` per harness entry, in order. */
  method AddEdgeList(graph: Graph, edges: seq<Edge>)
    requires graph.Valid() && EdgesWithin(edges, graph.numberOfVertices)
    modifies graph
    ensures graph.Valid() && graph.globalUsedPins == old(graph.globalUsedPins)
    ensures graph.adjacencyLists == AddEdges(old(graph.adjacencyLists), edges)
  {
    ghost var start := graph.adjacencyLists;
    for t := 0 to |edges|
      invariant graph.Valid() && graph.globalUsedPins == old(graph.globalUsedPins)
      invariant graph.adjacencyLists == AddEdges(start, edges[..t])
    {
      assert edges[..t + 1] == edges[..t] + [edges[t]];
      AddOne(start, edges[..t], edges[t]);
      graph.AddEdge(edges[t].0, edges[t].1);
    }
    assert edges[..|edges|] == edges;
  }

  /** The inner loop of the construction: X pin `j` of multiplexer `i` to each of its Y pins. */
  method AddRow(graph: Graph, i: nat, j: nat)
    requires i < 2 && j < 16 && graph.Valid() && graph.numberOfVertices == VertexCount
    modifies graph
    ensures graph.Valid() && graph.globalUsedPins == old(graph.globalUsedPins)
    ensures EdgesWithin(RowEdges(i, j), VertexCount)
    ensures graph.adjacencyLists == AddEdges(old(graph.adjacencyLists), RowEdges(i, j))
  {
    ghost var start := graph.adjacencyLists;
    for k := 0 to 8
      invariant graph.Valid() && graph.globalUsedPins == old(graph.globalUsedPins)
      invariant EdgesWithin(RowEdges(i, j)[..k], VertexCount)
      invariant graph.adjacencyLists == AddEdges(start, RowEdges(i, j)[..k])
    {
      var sourceVertex := Vertex(Multiplexers[i], X, j);
      var destinationVertex := Vertex(Multiplexers[i], Y, k);
      assert RowEdges(i, j)[..k + 1] == RowEdges(i, j)[..k] + [(sourceVertex, destinationVertex)];
      AddOne(start, RowEdges(i, j)[..k], (sourceVertex, destinationVertex));
      graph.AddEdge(sourceVertex, destinationVertex);
    }
    assert RowEdges(i, j)[..8] == RowEdges(i, j);
  }

  /** The middle loop of the construction: every X pin of multiplexer `i`. */
  method AddMultiplexer(graph: Graph, i: nat)
    requires i < 2 && graph.Valid() && graph.numberOfVertices == VertexCount
    modifies graph
    ensures graph.Valid() && graph.globalUsedPins == old(graph.globalUsedPins)
    ensures EdgesWithin(RowsUpTo(i, 16), VertexCount)
    ensures graph.adjacencyLists == AddEdges(old(graph.adjacencyLists), RowsUpTo(i, 16))
  {
    ghost var start := graph.adjacencyLists;
    for j := 0 to 16
      invariant graph.Valid() && graph.globalUsedPins == old(graph.globalUsedPins)
      invariant EdgesWithin(RowsUpTo(i, j), VertexCount)
      invariant graph.adjacencyLists == AddEdges(start, RowsUpTo(i, j))
    {
      AddRow(graph, i, j);
      AddEdgesAppend(start, RowsUpTo(i, j), RowEdges(i, j));
    }
  }

  /**
   * The module-level construction of the graph: the crosspoint loops over both
   * multiplexers, then the harness, edge by edge, on a graph with no pin used.
   */
  method BuildFabric() returns (graph: Graph)
    ensures fresh(graph) && fresh(graph.globalUsedPins) && graph.Valid()
    ensures graph.numberOfVertices == VertexCount
    ensures graph.adjacencyLists == Wiring()
    ensures forall v :: 0 <= v < VertexCount ==> !graph.globalUsedPins[v]
  {
    graph := new Graph(VertexCount);
    ghost var empty := graph.adjacencyLists;
    AddMultiplexers(graph);
    AddHarness(graph);
    HarnessWithin();
    FabricIsWiring(empty);
  }

  /** The outer loop of the construction: the crosspoints of both multiplexers. */
  method AddMultiplexers(graph: Graph)
    requires graph.Valid() && graph.numberOfVertices == VertexCount
    modifies graph
    ensures graph.Valid() && graph.globalUsedPins == old(graph.globalUsedPins)
    ensures EdgesWithin(MuxesUpTo(2), VertexCount)
    ensures graph.adjacencyLists == AddEdges(old(graph.adjacencyLists), MuxesUpTo(2))
  {
    ghost var start := graph.adjacencyLists;
    for i := 0 to 2
      invariant graph.Valid() && graph.globalUsedPins == old(graph.globalUsedPins)
      invariant EdgesWithin(MuxesUpTo(i), VertexCount)
      invariant graph.adjacencyLists == AddEdges(start, MuxesUpTo(i))
    {
      AddMultiplexer(graph, i);
      AddEdgesAppend(start, MuxesUpTo(i), RowsUpTo(i, 16));
    }
  }

  /** The hand-wired block of the construction: one `addEdge` per harness wire. */
  method AddHarness(graph: Graph)
    requires graph.Valid() && graph.numberOfVertices == VertexCount
    modifies graph
    ensures graph.Valid() && graph.globalUsedPins == old(graph.globalUsedPins)
    ensures graph.adjacencyLists == AddEdges(old(graph.adjacencyLists), HarnessTable())
  {
    HarnessTableIsWiring();
    HarnessWithin();
    AddEdgeList(graph, HarnessWires());
  }

  lemma FabricIsWiring(empty: seq<seq<nat>>)
    requires empty == EmptyLists(VertexCount)
    requires EdgesWithin(MuxesUpTo(2), VertexCount) && EdgesWithin(HarnessTable(), VertexCount)
    ensures AddEdges(AddEdges(empty, MuxesUpTo(2)), HarnessTable()) == Wiring()
  {
    AllEdgesWithin();
    AddEdgesAppend(empty, MuxesUpTo(2), HarnessTable());
  }
}
