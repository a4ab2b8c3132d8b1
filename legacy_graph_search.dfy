/**
 * The search over the older portal graph
 * (src/flowfields/portal/portal_graph_node_edges.rs): an A* walk from one
 * portal node to another that alternates external and internal edges, and
 * the choice of the cheapest route out of the portals a source cell sees
 * into the portals that see a target cell.
 *
 * The queue of the A* search is a `Vec` the source changes in place by
 * `swap_remove`, `push`, `iter_mut` and `sort_by`; here it is a sequence the
 * search method reassigns. Every queue entry is a route of the graph from
 * the source node, and that is the invariant the search keeps.
 */
module LegacyGraphSearch {
  import opened Options
  import opened Geometry
  import opened Sectors
  import opened FieldCost
  import opened Portal
  import opened LegacyGraph
  import opened Queues
  import Graph

  /** `i32::MAX`, the cost `find_best_path` starts from. */
  const I32_MAX: int := 0x7FFF_FFFF

  /** A queue entry of `astar`: a node to explore, its A* score, the nodes before it, the distance so far, and the kind of edge to follow next. */
  datatype Entry = Entry(node: PortalNode, score: int, history: seq<PortalNode>, distance: int, direction: Direction)

  /** The kind of edge the `i`-th step of a search follows: external first, as the search starts on a boundary, then alternating. */
  function DirectionOf(i: nat): Direction {
    if i % 2 == 0 then Graph.External else Graph.Internal
  }

  /** The filter of `find_edges`: an edge from a node equal to `source`, of kind `direction`. */
  predicate EdgeFrom(source: PortalNode, direction: Direction, e: PortalEdge) {
    NodesEqual(e.source, source) && e.direction == direction
  }

  /** `find_edges`: every edge of the graph from a node equal to `source` of kind `direction`, in the order of the set. */
  method FindEdges(graph: PortalGraph, source: PortalNode, direction: Direction) returns (r: seq<PortalEdge>)
    ensures forall e :: e in r <==> e in graph.edges.Values && EdgeFrom(source, direction, e)
  {
    r := [];
    var rest := graph.edges.Keys;
    while rest != {}
      invariant rest <= graph.edges.Keys
      invariant forall e :: e in r <==> (exists k :: k in graph.edges && k !in rest && graph.edges[k] == e) && EdgeFrom(source, direction, e)
      decreases rest
    {
      var k :| k in rest;
      if EdgeFrom(source, direction, graph.edges[k]) {
        r := r + [graph.edges[k]];
      }
      rest := rest - {k};
    }
  }

  /** `e` is an edge the search follows from `a` when it explores edges of kind `d`. */
  ghost predicate StepEdge(edges: map<EdgeKey, PortalEdge>, d: Direction, a: PortalNode, e: PortalEdge) {
    e in edges.Values && EdgeFrom(a, d, e)
  }

  /**
   * `h` is a walk of the search from `source`: it starts at a node equal to
   * the source, its `i`-th step follows an edge of the kind `DirectionOf(i)`
   * from the node before into a node equal to the next, and `distance` is
   * the sum of the distances of those edges.
   */
  ghost predicate Walk(edges: map<EdgeKey, PortalEdge>, source: PortalNode, h: seq<PortalNode>, distance: int)
    decreases |h|
  {
    |h| >= 1 &&
    if |h| == 1 then NodesEqual(h[0], source) && distance == 0
    else exists e :: (StepEdge(edges, DirectionOf(|h| - 2), h[|h| - 2], e) && NodesEqual(e.target, h[|h| - 1]) &&
                      Walk(edges, source, h[..|h| - 1], distance - e.distance))
  }

  /** A walk whose last edge reached a node of weight `weight`; the one-node walk has the source's own weight. */
  ghost predicate Route(edges: map<EdgeKey, PortalEdge>, source: PortalNode, h: seq<PortalNode>, distance: int, weight: int) {
    |h| >= 1 &&
    if |h| == 1 then NodesEqual(h[0], source) && distance == 0 && weight == source.weight
    else exists e :: (StepEdge(edges, DirectionOf(|h| - 2), h[|h| - 2], e) && NodesEqual(e.target, h[|h| - 1]) &&
                      weight == e.target.weight && Walk(edges, source, h[..|h| - 1], distance - e.distance))
  }

  /** `path` is a route of the search scoring `score`, of total distance `distance`: `a_star_score`, the distance plus the weight reached. */
  ghost predicate Found(edges: map<EdgeKey, PortalEdge>, source: PortalNode, path: seq<PortalNode>, score: int, distance: int) {
    Route(edges, source, path, distance, if |path| == 1 then score else score - distance)
  }

  /** A route is a walk. */
  lemma RouteIsWalk(edges: map<EdgeKey, PortalEdge>, source: PortalNode, h: seq<PortalNode>, distance: int, weight: int)
    requires Route(edges, source, h, distance, weight)
    ensures Walk(edges, source, h, distance)
  {
  }

  /** Following one more edge of the right kind extends a walk into a route ending at the edge's target. */
  lemma WalkExtends(edges: map<EdgeKey, PortalEdge>, source: PortalNode, h: seq<PortalNode>, distance: int, e: PortalEdge)
    requires Walk(edges, source, h, distance)
    requires StepEdge(edges, DirectionOf(|h| - 1), h[|h| - 1], e)
    ensures Route(edges, source, h + [e.target], distance + e.distance, e.target.weight)
  {
    var h' := h + [e.target];
    assert h'[..|h'| - 1] == h;
    assert h'[|h'| - 2] == h[|h| - 1];
  }

  /** A route only looks at its last node through node equality. */
  lemma RouteLastEqual(edges: map<EdgeKey, PortalEdge>, source: PortalNode, h: seq<PortalNode>, a: PortalNode, b: PortalNode,
                       distance: int, weight: int)
    requires Route(edges, source, h + [a], distance, weight) && NodesEqual(a, b)
    ensures Route(edges, source, h + [b], distance, weight)
  {
    assert (h + [a])[..|h|] == h == (h + [b])[..|h|];
    if h != [] {
      assert (h + [a])[|h| - 1] == (h + [b])[|h| - 1];
    }
  }

  /** The `(sector, cell)` of every node of a path, as `find_path_between_sector_portals` extracts them. */
  function CellsOf(h: seq<PortalNode>): (r: seq<(SectorID, FieldCell)>)
    ensures |r| == |h| && forall i :: 0 <= i < |h| ==> r[i] == (h[i].sector, h[i].cell)
  {
    seq(|h|, i requires 0 <= i < |h| => (h[i].sector, h[i].cell))
  }

  /** Some edge of the graph leads from the cell `a` to the cell `b`. */
  ghost predicate Joined(edges: map<EdgeKey, PortalEdge>, a: (SectorID, FieldCell), b: (SectorID, FieldCell)) {
    exists e :: e in edges.Values && (e.source.sector, e.source.cell) == a && (e.target.sector, e.target.cell) == b
  }

  /** Every two consecutive cells of the path are joined by an edge of the graph. */
  ghost predicate Linked(edges: map<EdgeKey, PortalEdge>, cells: seq<(SectorID, FieldCell)>) {
    forall i :: 0 <= i < |cells| - 1 ==> Joined(edges, cells[i], cells[i + 1])
  }

  /** A walk starts at the source's cell and runs along edges of the graph. */
  lemma {:induction false} WalkLinked(edges: map<EdgeKey, PortalEdge>, source: PortalNode, h: seq<PortalNode>, distance: int)
    requires Walk(edges, source, h, distance)
    ensures NodesEqual(h[0], source) && Linked(edges, CellsOf(h))
    decreases |h|
  {
    if |h| > 1 {
      var e :| StepEdge(edges, DirectionOf(|h| - 2), h[|h| - 2], e) && NodesEqual(e.target, h[|h| - 1]) &&
        Walk(edges, source, h[..|h| - 1], distance - e.distance);
      var front := h[..|h| - 1];
      WalkLinked(edges, source, front, distance - e.distance);
      var cells, shorter := CellsOf(h), CellsOf(front);
      forall i | 0 <= i < |cells| - 1 ensures Joined(edges, cells[i], cells[i + 1]) {
        if i < |cells| - 2 {
          assert cells[i] == shorter[i] && cells[i + 1] == shorter[i + 1];
        } else {
          assert (e.source.sector, e.source.cell) == cells[i] && (e.target.sector, e.target.cell) == cells[i + 1];
        }
      }
    }
  }

  /**
   * Along a walk the search alternates: its `i`-th step follows an external
   * edge when `i` is even and an internal one when `i` is odd, each from
   * the node before into a node equal to the next.
   */
  lemma {:induction false} WalkAlternates(edges: map<EdgeKey, PortalEdge>, source: PortalNode, h: seq<PortalNode>, distance: int)
    requires Walk(edges, source, h, distance)
    ensures forall i :: 0 <= i < |h| - 1 ==>
      exists e :: StepEdge(edges, if i % 2 == 0 then Graph.External else Graph.Internal, h[i], e) && NodesEqual(e.target, h[i + 1])
    decreases |h|
  {
    if |h| > 1 {
      var e :| StepEdge(edges, DirectionOf(|h| - 2), h[|h| - 2], e) && NodesEqual(e.target, h[|h| - 1]) &&
        Walk(edges, source, h[..|h| - 1], distance - e.distance);
      var front := h[..|h| - 1];
      WalkAlternates(edges, source, front, distance - e.distance);
      forall i | 0 <= i < |h| - 1
        ensures exists e :: StepEdge(edges, if i % 2 == 0 then Graph.External else Graph.Internal, h[i], e) && NodesEqual(e.target, h[i + 1])
      {
        if i < |h| - 2 {
          assert front[i] == h[i] && front[i + 1] == h[i + 1];
        } else {
          assert StepEdge(edges, if i % 2 == 0 then Graph.External else Graph.Internal, h[i], e);
        }
      }
    }
  }

  /**
   * A queue entry of a search from `source`: the direction it explores is
   * the one its depth calls for, and its history and node form a route of
   * total distance `distance` whose score is the source's weight for the
   * source entry and otherwise `distance` plus the weight of the node the
   * last edge reached.
   */
  ghost predicate EntryOK(edges: map<EdgeKey, PortalEdge>, source: PortalNode, q: Entry) {
    q.direction == DirectionOf(|q.history|) &&
    Route(edges, source, q.history + [q.node], q.distance, if q.history == [] then q.score else q.score - q.distance)
  }

  /** Every entry of the queue is a route of the search. */
  ghost predicate QueueOK(edges: map<EdgeKey, PortalEdge>, source: PortalNode, queue: seq<Entry>) {
    forall q :: q in queue ==> EntryOK(edges, source, q)
  }

  /** `a_star_score`: lower is better. */
  function AStarScore(distance: int, weighting: int): int {
    distance + weighting
  }

  /** The entry `astar` builds for the target of edge `e` taken from `current`. */
  function NextEntry(current: Entry, e: PortalEdge): (r: Entry)
    ensures r.node == e.target && r.history == current.history + [current.node] && r.direction == Graph.Flip(current.direction)
    ensures r.distance == current.distance + e.distance && r.score == r.distance + e.target.weight
  {
    var travelled := current.distance + e.distance;
    Entry(e.target, AStarScore(travelled, e.target.weight), current.history + [current.node], travelled, Graph.Flip(current.direction))
  }

  /** Taking an edge the search follows from a queue entry gives a queue entry. */
  lemma NextEntryOK(edges: map<EdgeKey, PortalEdge>, source: PortalNode, current: Entry, e: PortalEdge)
    requires EntryOK(edges, source, current)
    requires StepEdge(edges, current.direction, current.node, e)
    ensures EntryOK(edges, source, NextEntry(current, e))
  {
    var h := current.history + [current.node];
    RouteIsWalk(edges, source, h, current.distance, if current.history == [] then current.score else current.score - current.distance);
    WalkExtends(edges, source, h, current.distance, e);
  }

  /** The queue entry for `next`'s node is one `iter_mut` overwrites: an equal node, and a score no better than the new one. */
  predicate Improves(q: Entry, next: Entry) {
    NodesEqual(q.node, next.node) && q.score >= next.score
  }

  /** An entry overwritten with the score, history, distance and direction of `next`, keeping its own node. */
  function Redirected(q: Entry, next: Entry): (r: Entry)
    ensures r.node == q.node && r.score == next.score && r.history == next.history
    ensures r.distance == next.distance && r.direction == next.direction
  {
    q.(score := next.score, history := next.history, distance := next.distance, direction := next.direction)
  }

  /** Overwriting an entry of an equal node with a queue entry past the source gives a queue entry. */
  lemma RedirectedOK(edges: map<EdgeKey, PortalEdge>, source: PortalNode, q: Entry, next: Entry)
    requires EntryOK(edges, source, next) && next.history != [] && NodesEqual(q.node, next.node)
    ensures EntryOK(edges, source, Redirected(q, next))
  {
    RouteLastEqual(edges, source, next.history, next.node, q.node, next.distance, next.score - next.distance);
  }

  /**
   * The `iter_mut` pass of `astar`: every entry of the new node whose score
   * is no better is overwritten, the others stay, and a new entry is
   * required exactly when none was overwritten.
   */
  method RedirectQueue(queue: seq<Entry>, next: Entry) returns (r: seq<Entry>, required: bool)
    ensures |r| == |queue|
    ensures forall j :: 0 <= j < |queue| ==> r[j] == if Improves(queue[j], next) then Redirected(queue[j], next) else queue[j]
    ensures required <==> forall j :: 0 <= j < |queue| ==> !Improves(queue[j], next)
  {
    r, required := queue, true;
    for j := 0 to |queue|
      invariant |r| == |queue|
      invariant forall i :: 0 <= i < j ==> r[i] == if Improves(queue[i], next) then Redirected(queue[i], next) else queue[i]
      invariant forall i :: j <= i < |queue| ==> r[i] == queue[i]
      invariant required <==> forall i :: 0 <= i < j ==> !Improves(queue[i], next)
    {
      if Improves(r[j], next) {
        required := false;
        r := r[j := Redirected(r[j], next)];
      }
    }
  }

  /** The `iter_mut` pass keeps every entry of the queue a route of the search. */
  lemma RedirectionKeepsEntries(edges: map<EdgeKey, PortalEdge>, source: PortalNode, queue: seq<Entry>, r: seq<Entry>, next: Entry)
    requires QueueOK(edges, source, queue)
    requires EntryOK(edges, source, next) && next.history != []
    requires |r| == |queue|
    requires forall j :: 0 <= j < |queue| ==> r[j] == if Improves(queue[j], next) then Redirected(queue[j], next) else queue[j]
    ensures QueueOK(edges, source, r)
  {
    forall q | q in r ensures EntryOK(edges, source, q) {
      var j :| 0 <= j < |r| && r[j] == q;
      if Improves(queue[j], next) {
        RedirectedOK(edges, source, queue[j], next);
      } else {
        assert queue[j] in queue;
      }
    }
  }

  /**
   * The body of the loop of `astar` over the edges found, for the entry
   * `next` an edge leads to: the target gets the new score when it has none
   * or one no better, and its queue entry is then overwritten or added.
   */
  method ProcessEdge(ghost edges: map<EdgeKey, PortalEdge>, ghost source: PortalNode,
                     queue: seq<Entry>, scores: map<NodeKey, int>, next: Entry)
    returns (queue': seq<Entry>, scores': map<NodeKey, int>)
    requires QueueOK(edges, source, queue)
    requires EntryOK(edges, source, next) && next.history != []
    ensures QueueOK(edges, source, queue')
    ensures scores'.Keys == scores.Keys + {next.node.Key()}
    ensures forall k :: k in scores && k != next.node.Key() ==> scores'[k] == scores[k]
    ensures scores'[next.node.Key()] == if next.node.Key() in scores && scores[next.node.Key()] < next.score then scores[next.node.Key()] else next.score
  {
    queue', scores' := queue, scores;
    if next.node.Key() in scores {
      if scores[next.node.Key()] >= next.score {
        scores' := scores[next.node.Key() := next.score];
        var redirected, required := RedirectQueue(queue, next);
        RedirectionKeepsEntries(edges, source, queue, redirected, next);
        queue' := redirected;
        if required {
          queue' := queue' + [next];
        }
      }
    } else {
      scores' := scores[next.node.Key() := next.score];
      queue' := queue + [next];
    }
  }

  /** The nodes reached by a list of edges. */
  function Targets(es: seq<PortalEdge>): set<NodeKey> {
    set e | e in es :: e.target.Key()
  }

  /**
   * The scores after processing the edges `es` found from `current`: every
   * target of an edge has a score no worse than the route through
   * `current`, and no score got worse.
   */
  ghost predicate ScoresBound(scores: map<NodeKey, int>, now: map<NodeKey, int>, current: Entry, es: seq<PortalEdge>) {
    now.Keys == scores.Keys + Targets(es) &&
    (forall k :: k in scores ==> now[k] <= scores[k]) &&
    (forall e :: e in es ==> now[e.target.Key()] <= NextEntry(current, e).score)
  }

  /** Processing one more edge keeps the scores bounded. */
  lemma ScoresStep(scores: map<NodeKey, int>, mid: map<NodeKey, int>, now: map<NodeKey, int>, current: Entry, es: seq<PortalEdge>, e: PortalEdge)
    requires ScoresBound(scores, mid, current, es)
    requires now.Keys == mid.Keys + {e.target.Key()}
    requires forall k :: k in mid && k != e.target.Key() ==> now[k] == mid[k]
    requires now[e.target.Key()] == if e.target.Key() in mid && mid[e.target.Key()] < NextEntry(current, e).score then mid[e.target.Key()] else NextEntry(current, e).score
    ensures ScoresBound(scores, now, current, es + [e])
  {
    assert Targets(es + [e]) == Targets(es) + {e.target.Key()};
  }

  /**
   * The loop of `astar` over the edges found from the entry `current`.
   * Afterwards every target has a score no worse than the route through
   * `current`, no score got worse, and the queue still holds only routes of
   * the search.
   */
  method ProcessNeighbours(ghost edges: map<EdgeKey, PortalEdge>, ghost source: PortalNode,
                           queue: seq<Entry>, scores: map<NodeKey, int>, current: Entry, neighbours: seq<PortalEdge>)
    returns (queue': seq<Entry>, scores': map<NodeKey, int>)
    requires QueueOK(edges, source, queue)
    requires EntryOK(edges, source, current)
    requires forall e :: e in neighbours ==> StepEdge(edges, current.direction, current.node, e)
    ensures QueueOK(edges, source, queue')
    ensures ScoresBound(scores, scores', current, neighbours)
  {
    queue', scores' := queue, scores;
    assert neighbours[..0] == [];
    for i := 0 to |neighbours|
      invariant QueueOK(edges, source, queue')
      invariant ScoresBound(scores, scores', current, neighbours[..i])
    {
      var e := neighbours[i];
      assert neighbours[..i + 1] == neighbours[..i] + [e];
      assert e in neighbours;
      NextEntryOK(edges, source, current, e);
      ghost var mid := scores';
      queue', scores' := ProcessEdge(edges, source, queue', scores', NextEntry(current, e));
      ScoresStep(scores, mid, scores', current, neighbours[..i], e);
    }
    assert neighbours[..|neighbours|] == neighbours;
  }

  /** The score a queue entry is sorted by. */
  function ScoreOf(q: Entry): int {
    q.score
  }

  /** Every entry of a queue whose entries all come from a queue of routes is a route. */
  lemma KeptEntries(edges: map<EdgeKey, PortalEdge>, source: PortalNode, a: seq<Entry>, b: seq<Entry>)
    requires multiset(a) <= multiset(b)
    requires QueueOK(edges, source, b)
    ensures QueueOK(edges, source, a)
  {
    forall q | q in a ensures EntryOK(edges, source, q) {
      assert q in multiset(a);
      assert q in multiset(b);
    }
  }

  /**
   * One round of `astar` after the entry `current` is taken off the queue:
   * the edges of the kind it explores are found and processed, and the
   * queue is sorted by score; it still holds only routes of the search.
   */
  method ExploreFrom(graph: PortalGraph, ghost source: PortalNode, queue: seq<Entry>, scores: map<NodeKey, int>, current: Entry)
    returns (queue': seq<Entry>, scores': map<NodeKey, int>)
    requires QueueOK(graph.edges, source, queue)
    requires EntryOK(graph.edges, source, current)
    ensures QueueOK(graph.edges, source, queue')
    ensures SortedBy(queue', ScoreOf)
  {
    var neighbours := FindEdges(graph, current.node, current.direction);
    var processed;
    processed, scores' := ProcessNeighbours(graph.edges, source, queue, scores, current, neighbours);
    queue' := SortBy(processed, ScoreOf);
    KeptEntries(graph.edges, source, queue', processed);
  }

  /** The entry of the source node that every search starts from: its own weight as score, no distance, external edges next. */
  function StartEntry(source: PortalNode): Entry {
    Entry(source, source.weight, [], 0, Graph.External)
  }

  /**
   * The loop of `astar`: the entry of the target once the queue presents
   * it first, `None` when the queue empties or after `fuel` rounds. An
   * entry it returns is a route of the search to a node equal to the
   * target; the source's own entry when source and target are equal.
   */
  method Search(graph: PortalGraph, source: PortalNode, target: PortalNode, fuel: nat) returns (found: Option<Entry>)
    ensures NodesEqual(source, target) ==> found == Some(StartEntry(source))
    ensures found.Some? ==> NodesEqual(found.value.node, target) && EntryOK(graph.edges, source, found.value)
  {
    var scores := map[source.Key() := source.weight];
    var queue := [StartEntry(source)];
    ghost var popped := false;
    var rounds := fuel;
    while !NodesEqual(queue[0].node, target)
      invariant queue != []
      invariant QueueOK(graph.edges, source, queue)
      invariant !popped ==> queue == [StartEntry(source)]
      invariant popped ==> !NodesEqual(source, target)
      decreases rounds
    {
      if rounds == 0 {
        return None;
      }
      rounds := rounds - 1;
      var current := queue[0];
      var rest := SwapRemoveFirst(queue);
      KeptEntries(graph.edges, source, rest, queue);
      popped := true;
      queue, scores := ExploreFrom(graph, source, rest, scores, current);
      if queue == [] {
        return None;
      }
    }
    assert queue[0] in queue;
    found := Some(queue[0]);
  }

  /**
   * `astar`, which panics unless both ends are nodes of the graph: the
   * one-node path when source and target are equal. A path it returns ends
   * with the target, and is a route of the graph from the source,
   * alternating external and internal edges, whose score is its distance
   * plus the weight of the node its last edge reached. The search stops
   * after `fuel` rounds.
   */
  method AStar(graph: PortalGraph, source: PortalNode, target: PortalNode, fuel: nat) returns (r: Option<(int, seq<PortalNode>)>)
    requires source.Key() in graph.nodes && target.Key() in graph.nodes
    ensures NodesEqual(source, target) ==> r == Some((source.weight, [target]))
    ensures r.Some? ==> (|r.value.1| >= 1 && r.value.1[|r.value.1| - 1] == target &&
      exists d :: Found(graph.edges, source, r.value.1, r.value.0, d))
  {
    var found := Search(graph, source, target, fuel);
    if found.None? {
      return None;
    }
    var entry := found.value;
    RouteLastEqual(graph.edges, source, entry.history, entry.node, target,
                   entry.distance, if entry.history == [] then entry.score else entry.score - entry.distance);
    var path := entry.history + [target];
    assert |path| >= 1 && path[|path| - 1] == target;
    assert |path| == 1 <==> entry.history == [];
    assert Found(graph.edges, source, path, entry.score, entry.distance);
    if NodesEqual(source, target) {
      assert entry == StartEntry(source) && path == [target];
    }
    r := Some((entry.score, path));
  }

  /** `cells` starts at the cell of `a`, ends at the cell of `b`, and runs along edges of the graph. */
  ghost predicate CellRoute(edges: map<EdgeKey, PortalEdge>, a: PortalNode, b: PortalNode, cells: seq<(SectorID, FieldCell)>) {
    |cells| >= 1 && cells[0] == (a.sector, a.cell) && cells[|cells| - 1] == (b.sector, b.cell) && Linked(edges, cells)
  }

  /** The loop of `find_path_between_sector_portals` that turns the nodes of a path into their `(sector, cell)`. */
  method ExtractCells(path: seq<PortalNode>) returns (p: seq<(SectorID, FieldCell)>)
    ensures p == CellsOf(path)
  {
    p := [];
    for i := 0 to |path|
      invariant p == CellsOf(path[..i])
    {
      assert path[..i + 1] == path[..i] + [path[i]];
      p := p + [(path[i].sector, path[i].cell)];
    }
    assert path[..|path|] == path;
  }

  /**
   * `find_path_between_sector_portals`: the score and cells of the path
   * `astar` finds, which runs along the graph from the source node to the
   * target node; the one cell of the source when both are equal.
   */
  method FindPathBetweenSectorPortals(graph: PortalGraph, source: PortalNode, target: PortalNode, fuel: nat)
    returns (r: Option<(int, seq<(SectorID, FieldCell)>)>)
    requires source.Key() in graph.nodes && target.Key() in graph.nodes
    ensures NodesEqual(source, target) ==> r == Some((source.weight, [(target.sector, target.cell)]))
    ensures r.Some? ==> CellRoute(graph.edges, source, target, r.value.1)
  {
    var found := AStar(graph, source, target, fuel);
    if found.None? {
      return None;
    }
    var path := found.value.1;
    ghost var d :| Found(graph.edges, source, path, found.value.0, d);
    RouteIsWalk(graph.edges, source, path, d, if |path| == 1 then found.value.0 else found.value.0 - d);
    WalkLinked(graph.edges, source, path, d);
    var p := ExtractCells(path);
    r := Some((found.value.0, p));
    if NodesEqual(source, target) {
      assert path == [target];
      assert p == [(target.sector, target.cell)];
    }
  }

  // ---------------------------------------------------------------------
  // find_best_path

  /** The cells of `cells` that `from` sees, in order. */
  function Visible(field: CostField, sees: Visibility, from: FieldCell, cells: seq<FieldCell>): (r: seq<FieldCell>)
    ensures |r| <= |cells| && forall c :: c in r <==> c in cells && sees(field, from, c).0
  {
    if cells == [] then []
    else
      assert cells == [cells[0]] + cells[1..];
      (if sees(field, from, cells[0]).0 then [cells[0]] else []) + Visible(field, sees, from, cells[1..])
  }

  /** Filtering a concatenation filters each part. */
  lemma {:induction false} VisibleConcat(field: CostField, sees: Visibility, from: FieldCell, a: seq<FieldCell>, b: seq<FieldCell>)
    ensures Visible(field, sees, from, a + b) == Visible(field, sees, from, a) + Visible(field, sees, from, b)
    decreases |a|
  {
    if a == [] {
      assert a + b == b;
    } else {
      assert (a + b)[0] == a[0] && (a + b)[1..] == a[1..] + b;
      VisibleConcat(field, sees, from, a[1..], b);
    }
  }

  /** The inner gathering loop of `find_best_path`: the cells of one side that `from` sees, in order. */
  method VisibleSide(field: CostField, sees: Visibility, from: FieldCell, cells: seq<FieldCell>) returns (r: seq<FieldCell>)
    ensures r == Visible(field, sees, from, cells)
  {
    r := [];
    for j := 0 to |cells|
      invariant r == Visible(field, sees, from, cells[..j])
    {
      assert cells[..j + 1] == cells[..j] + [cells[j]];
      VisibleConcat(field, sees, from, cells[..j], [cells[j]]);
      if sees(field, from, cells[j]).0 {
        r := r + [cells[j]];
      }
    }
    assert cells[..|cells|] == cells;
  }

  /**
   * The gathering loops of `find_best_path`: the portals of the sector,
   * side after side in the order `Portals::get` yields them, that the cell
   * `from` sees.
   */
  method VisiblePortals(field: CostField, sees: Visibility, from: FieldCell, p: Portals) returns (r: seq<FieldCell>)
    ensures r == Visible(field, sees, from, EveryPortal(p))
  {
    var sides := [p.north, p.east, p.south, p.west];
    r := [];
    ghost var done: seq<FieldCell> := [];
    for o := 0 to 4
      invariant done == if o == 0 then [] else if o == 1 then p.north else if o == 2 then p.north + p.east
        else if o == 3 then p.north + p.east + p.south else EveryPortal(p)
      invariant r == Visible(field, sees, from, done)
    {
      var more := VisibleSide(field, sees, from, sides[o]);
      VisibleConcat(field, sees, from, done, sides[o]);
      r := r + more;
      done := done + sides[o];
    }
  }

  /** A path found between portal `a` of the source sector and portal `b` of the target sector: a score and the cells it runs along. */
  type Candidate = (int, seq<(SectorID, FieldCell)>)

  /**
   * The candidate the selection loop of `find_best_path` keeps: starting
   * from a best cost of `i32::MAX`, each candidate of strictly smaller score
   * replaces the one before.
   */
  function Cheapest(paths: seq<Candidate>): Option<Candidate>
    decreases |paths|
  {
    if paths == [] then None
    else
      var before := Cheapest(paths[..|paths| - 1]);
      var last := paths[|paths| - 1];
      if last.0 < (if before.Some? then before.value.0 else I32_MAX) then Some(last) else before
  }

  /** `paths[i]` is the first candidate of least score, and that score is below `i32::MAX`. */
  predicate FirstLeast(paths: seq<Candidate>, i: int) {
    0 <= i < |paths| && paths[i].0 < I32_MAX &&
    (forall j :: 0 <= j < |paths| ==> paths[i].0 <= paths[j].0) && (forall j :: 0 <= j < i ==> paths[j].0 > paths[i].0)
  }

  /**
   * The selection of `find_best_path` picks the first candidate of least
   * score, provided that score is below `i32::MAX`: nothing when every
   * candidate costs `i32::MAX` or more.
   */
  lemma {:induction false} CheapestIsFirstLeast(paths: seq<Candidate>)
    ensures Cheapest(paths).None? <==> forall i :: 0 <= i < |paths| ==> paths[i].0 >= I32_MAX
    ensures Cheapest(paths).Some? ==> exists i :: FirstLeast(paths, i) && Cheapest(paths).value == paths[i]
    decreases |paths|
  {
    if paths != [] {
      var front := paths[..|paths| - 1];
      CheapestIsFirstLeast(front);
      var n := |paths| - 1;
      assert forall j :: 0 <= j < n ==> paths[j] == front[j];
      if Cheapest(front).Some? {
        var i :| FirstLeast(front, i) && Cheapest(front).value == front[i];
        if paths[n].0 < front[i].0 {
          assert FirstLeast(paths, n);
        } else {
          assert FirstLeast(paths, i);
        }
      } else if paths[n].0 < I32_MAX {
        assert FirstLeast(paths, n);
      }
    }
  }

  /** The selection loop of `find_best_path` over the candidates found. */
  method SelectBest(paths: seq<Candidate>) returns (best: Option<seq<(SectorID, FieldCell)>>)
    ensures best == if Cheapest(paths).Some? then Some(Cheapest(paths).value.1) else None
  {
    var bestCost := I32_MAX;
    var chosen: Option<Candidate> := None;
    for i := 0 to |paths|
      invariant chosen == Cheapest(paths[..i])
      invariant bestCost == if chosen.Some? then chosen.value.0 else I32_MAX
    {
      assert paths[..i + 1][..i] == paths[..i];
      if paths[i].0 < bestCost {
        bestCost := paths[i].0;
        chosen := Some(paths[i]);
      }
    }
    assert paths[..|paths|] == paths;
    best := if chosen.Some? then Some(chosen.value.1) else None;
  }

  /**
   * A candidate `find_best_path` may return: it starts in the source
   * sector at a portal the source cell sees, ends in the target sector at
   * a portal that sees the target cell, and runs along edges of the graph.
   */
  ghost predicate CandidateFits(edges: map<EdgeKey, PortalEdge>, source: SectorID, sources: seq<FieldCell>,
                                target: SectorID, targets: seq<FieldCell>, cells: seq<(SectorID, FieldCell)>) {
    |cells| >= 1 &&
    cells[0].0 == source && cells[0].1 in sources &&
    cells[|cells| - 1].0 == target && cells[|cells| - 1].1 in targets &&
    Linked(edges, cells)
  }

  /** The loop of `find_best_path` over the target portals, for one source portal. */
  method TryTargets(graph: PortalGraph, sourceNode: PortalNode, sources: seq<FieldCell>, target: SectorID, targetWeight: int,
                    targets: seq<FieldCell>, fuel: nat) returns (paths: seq<Candidate>)
    requires sourceNode.Key() in graph.nodes && sourceNode.cell in sources
    requires forall c :: c in targets ==> NodeKey(target, c) in graph.nodes
    ensures forall i :: 0 <= i < |paths| ==> CandidateFits(graph.edges, sourceNode.sector, sources, target, targets, paths[i].1)
  {
    paths := [];
    for j := 0 to |targets|
      invariant forall i :: 0 <= i < |paths| ==> CandidateFits(graph.edges, sourceNode.sector, sources, target, targets, paths[i].1)
    {
      assert targets[j] in targets;
      var targetNode := PortalNode(target, targets[j], targetWeight);
      var path := FindPathBetweenSectorPortals(graph, sourceNode, targetNode, fuel);
      if path.Some? {
        paths := paths + [path.value];
      }
    }
  }

  /** The pairing loops of `find_best_path`: a search from every source portal to every target portal, keeping what is found. */
  method CollectPaths(graph: PortalGraph, source: SectorID, sourceWeight: int, sources: seq<FieldCell>,
                      target: SectorID, targetWeight: int, targets: seq<FieldCell>, fuel: nat) returns (paths: seq<Candidate>)
    requires targets != [] ==> forall c :: c in sources ==> NodeKey(source, c) in graph.nodes
    requires sources != [] ==> forall c :: c in targets ==> NodeKey(target, c) in graph.nodes
    ensures forall i :: 0 <= i < |paths| ==> CandidateFits(graph.edges, source, sources, target, targets, paths[i].1)
  {
    paths := [];
    if targets == [] {
      return;
    }
    for i := 0 to |sources|
      invariant forall k :: 0 <= k < |paths| ==> CandidateFits(graph.edges, source, sources, target, targets, paths[k].1)
    {
      assert sources[i] in sources;
      var more := TryTargets(graph, PortalNode(source, sources[i], sourceWeight), sources, target, targetWeight, targets, fuel);
      paths := paths + more;
    }
  }

  /**
   * What `find_best_path` demands, where `astar` would panic: when the
   * source cell sees some portal and the target cell is seen from some
   * portal, every such portal is a node of the graph.
   */
  ghost predicate EndsAreNodes(graph: PortalGraph, sectorPortals: map<SectorID, Portals>, scaled: map<SectorID, CostField>, sees: Visibility,
                               source: (SectorID, FieldCell), target: (SectorID, FieldCell))
    reads graph
    requires source.0 in scaled && source.0 in sectorPortals && target.0 in scaled && target.0 in sectorPortals
  {
    var sources := Visible(scaled[source.0], sees, source.1, EveryPortal(sectorPortals[source.0]));
    var targets := Visible(scaled[target.0], sees, target.1, EveryPortal(sectorPortals[target.0]));
    sources != [] && targets != [] ==>
      (forall c :: c in sources ==> NodeKey(source.0, c) in graph.nodes) &&
      (forall c :: c in targets ==> NodeKey(target.0, c) in graph.nodes)
  }

  /**
   * `find_best_path`: a search from each portal of the source sector the
   * source cell sees to each portal of the target sector that sees the
   * target cell, and the first of least score below `i32::MAX` among the
   * paths found. A path it returns starts at a portal the source cell
   * sees, ends at a portal that sees the target cell, and runs along edges
   * of the graph. The source and target sectors must have scaled costs and
   * portals, which the source `unwrap`s.
   */
  method FindBestPath(graph: PortalGraph, source: (SectorID, FieldCell), target: (SectorID, FieldCell),
                      sectorPortals: map<SectorID, Portals>, scaled: map<SectorID, CostField>, sees: Visibility, fuel: nat)
    returns (r: Option<seq<(SectorID, FieldCell)>>)
    requires source.0 in scaled && source.0 in sectorPortals && target.0 in scaled && target.0 in sectorPortals
    requires EndsAreNodes(graph, sectorPortals, scaled, sees, source, target)
    ensures r.Some? ==> CandidateFits(graph.edges, source.0, Visible(scaled[source.0], sees, source.1, EveryPortal(sectorPortals[source.0])),
                                      target.0, Visible(scaled[target.0], sees, target.1, EveryPortal(sectorPortals[target.0])), r.value)
  {
    var sourceWeight := GetCost(scaled[source.0], source.1) as int;
    var sources := VisiblePortals(scaled[source.0], sees, source.1, sectorPortals[source.0]);
    var targetWeight := GetCost(scaled[target.0], target.1) as int;
    var targets := VisiblePortals(scaled[target.0], sees, target.1, sectorPortals[target.0]);
    var paths := CollectPaths(graph, source.0, sourceWeight, sources, target.0, targetWeight, targets, fuel);
    r := SelectBest(paths);
    CheapestIsFirstLeast(paths);
    if r.Some? {
      var i :| FirstLeast(paths, i) && Cheapest(paths).value == paths[i];
    }
  }
}
