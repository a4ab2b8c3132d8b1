/**
 * The search over the portal graph (src/flowfields/portal/portal_graph.rs):
 * an A* walk that alternates external and internal edges, and the choice
 * of the cheapest route out of the portals a source cell reaches into the
 * portals that reach a target cell.
 *
 * The queue of the A* search is a `Vec` the source changes in place by
 * `swap_remove`, `push`, `iter_mut` and `sort_by`; here it is a sequence the
 * search method reassigns. Every queue entry is a route of the graph from
 * the source node, and that is the invariant the search keeps.
 */
module GraphSearch {
  import opened Options
  import opened Geometry
  import opened Grids
  import opened Sectors
  import opened FieldCost
  import opened Reachability
  import opened Portal
  import opened Graph
  import opened Queues

  /** `AStarQueueItem`: a node to explore, its A* score, the nodes before it, the distance so far, and the kind of edge to follow next. */
  datatype QueueItem = QueueItem(node: Node, score: int, history: seq<Node>, distance: int, direction: Direction)

  /** The kind of edge the `i`-th step of a search follows: external first, as the search starts on a boundary, then alternating. */
  function DirectionOf(i: nat): Direction {
    if i % 2 == 0 then External else Internal
  }

  /** The filter of `find_edges_internal`: an edge inside the node's sector starting at the node's cell, whatever its side. */
  predicate InternalFrom(source: Node, e: Edge) {
    e.from.sector == source.sector && e.to.sector == source.sector && e.from.cell == source.cell
  }

  /** The filter of `find_edges_external`: an edge from a node equal to `source` into another sector. */
  predicate ExternalFrom(source: Node, e: Edge) {
    e.from.Id() == source.Id() && e.to.sector != source.sector
  }

  /** The edges of `es` that `keep` accepts, in the iteration order of the set. */
  method EdgesWhere(es: map<EdgeId, Edge>, keep: Edge -> bool) returns (r: seq<Edge>)
    ensures forall e :: e in r <==> e in es.Values && keep(e)
  {
    r := [];
    var rest := es.Keys;
    while rest != {}
      invariant rest <= es.Keys
      invariant forall e :: e in r <==> (exists k :: k in es && k !in rest && es[k] == e) && keep(e)
      decreases rest
    {
      var k :| k in rest;
      if keep(es[k]) {
        r := r + [es[k]];
      }
      rest := rest - {k};
    }
  }

  /** `find_edges_internal`: every internal edge that leaves the node's cell within its sector. */
  method FindEdgesInternal(graph: PortalGraph, source: Node) returns (r: seq<Edge>)
    ensures forall e :: e in r <==> e in graph.edgesInternal.Values && InternalFrom(source, e)
  {
    r := EdgesWhere(graph.edgesInternal, e => InternalFrom(source, e));
  }

  /** `find_edges_external`: every external edge from the node into a neighbouring sector. */
  method FindEdgesExternal(graph: PortalGraph, source: Node) returns (r: seq<Edge>)
    ensures forall e :: e in r <==> e in graph.edgesExternal.Values && ExternalFrom(source, e)
  {
    r := EdgesWhere(graph.edgesExternal, e => ExternalFrom(source, e));
  }

  /** `e` is an edge the search follows from `a` when it explores edges of kind `d`. */
  ghost predicate StepEdge(internal: map<EdgeId, Edge>, external: map<EdgeId, Edge>, d: Direction, a: Node, e: Edge) {
    if d == Internal then e in internal.Values && InternalFrom(a, e)
    else e in external.Values && ExternalFrom(a, e)
  }

  /**
   * `h` is a walk of the search from `source`: it starts at a node equal to
   * the source, its `i`-th step follows an edge of the kind `DirectionOf(i)`
   * from the node before into a node equal to the next, and `distance` is
   * `base` plus the distances of those edges.
   */
  ghost predicate Walk(internal: map<EdgeId, Edge>, external: map<EdgeId, Edge>, source: Node, base: int, h: seq<Node>, distance: int)
    decreases |h|
  {
    |h| >= 1 &&
    if |h| == 1 then h[0].Id() == source.Id() && distance == base
    else exists e :: (StepEdge(internal, external, DirectionOf(|h| - 2), h[|h| - 2], e) && e.to.Id() == h[|h| - 1].Id() &&
                      Walk(internal, external, source, base, h[..|h| - 1], distance - e.distance))
  }

  /** A walk whose last edge reached a node of weight `weight`; the one-node walk has the source's own weight. */
  ghost predicate Route(internal: map<EdgeId, Edge>, external: map<EdgeId, Edge>, source: Node, base: int,
                        h: seq<Node>, distance: int, weight: int) {
    |h| >= 1 &&
    if |h| == 1 then h[0].Id() == source.Id() && distance == base && weight == source.weight as int
    else exists e :: (StepEdge(internal, external, DirectionOf(|h| - 2), h[|h| - 2], e) && e.to.Id() == h[|h| - 1].Id() &&
                      weight == e.to.weight as int && Walk(internal, external, source, base, h[..|h| - 1], distance - e.distance))
  }

  /** `path` is a route of the search scoring `score`, of total distance `distance`. */
  ghost predicate Found(internal: map<EdgeId, Edge>, external: map<EdgeId, Edge>, source: Node, base: int,
                        path: seq<Node>, score: int, distance: int) {
    Route(internal, external, source, base, path, distance, if |path| == 1 then score else score - distance)
  }

  /** A route is a walk. */
  lemma RouteIsWalk(internal: map<EdgeId, Edge>, external: map<EdgeId, Edge>, source: Node, base: int,
                    h: seq<Node>, distance: int, weight: int)
    requires Route(internal, external, source, base, h, distance, weight)
    ensures Walk(internal, external, source, base, h, distance)
  {
  }

  /** Following one more edge of the right kind extends a walk into a route ending at the edge's target. */
  lemma WalkExtends(internal: map<EdgeId, Edge>, external: map<EdgeId, Edge>, source: Node, base: int,
                    h: seq<Node>, distance: int, e: Edge)
    requires Walk(internal, external, source, base, h, distance)
    requires StepEdge(internal, external, DirectionOf(|h| - 1), h[|h| - 1], e)
    ensures Route(internal, external, source, base, h + [e.to], distance + e.distance, e.to.weight as int)
  {
    var h' := h + [e.to];
    assert h'[..|h'| - 1] == h;
    assert h'[|h'| - 2] == h[|h| - 1];
  }

  /** A route only looks at its last node through node equality. */
  lemma RouteLastId(internal: map<EdgeId, Edge>, external: map<EdgeId, Edge>, source: Node, base: int,
                    h: seq<Node>, a: Node, b: Node, distance: int, weight: int)
    requires Route(internal, external, source, base, h + [a], distance, weight) && a.Id() == b.Id()
    ensures Route(internal, external, source, base, h + [b], distance, weight)
  {
    assert (h + [a])[..|h|] == h == (h + [b])[..|h|];
    if h != [] {
      assert (h + [a])[|h| - 1] == (h + [b])[|h| - 1];
    }
  }

  /** The `(sector, cell)` of every node of a path, as `find_path_between_sector_portals` extracts them. */
  function CellsOf(h: seq<Node>): (r: seq<(SectorID, FieldCell)>)
    ensures |r| == |h| && forall i :: 0 <= i < |h| ==> r[i] == (h[i].sector, h[i].cell)
  {
    seq(|h|, i requires 0 <= i < |h| => (h[i].sector, h[i].cell))
  }

  /** Some edge of the graph leads from the cell `a` to the cell `b`. */
  ghost predicate Joined(internal: map<EdgeId, Edge>, external: map<EdgeId, Edge>, a: (SectorID, FieldCell), b: (SectorID, FieldCell)) {
    exists e :: (e in internal.Values || e in external.Values) && (e.from.sector, e.from.cell) == a && (e.to.sector, e.to.cell) == b
  }

  /** Every two consecutive cells of the path are joined by an edge of the graph. */
  ghost predicate Linked(internal: map<EdgeId, Edge>, external: map<EdgeId, Edge>, cells: seq<(SectorID, FieldCell)>) {
    forall i :: 0 <= i < |cells| - 1 ==> Joined(internal, external, cells[i], cells[i + 1])
  }

  /** A walk starts at the source's cell and runs along edges of the graph. */
  lemma {:induction false} WalkLinked(internal: map<EdgeId, Edge>, external: map<EdgeId, Edge>, source: Node, base: int,
                                      h: seq<Node>, distance: int)
    requires Walk(internal, external, source, base, h, distance)
    ensures h[0].Id() == source.Id() && Linked(internal, external, CellsOf(h))
    decreases |h|
  {
    if |h| > 1 {
      var e :| StepEdge(internal, external, DirectionOf(|h| - 2), h[|h| - 2], e) && e.to.Id() == h[|h| - 1].Id() &&
        Walk(internal, external, source, base, h[..|h| - 1], distance - e.distance);
      var front := h[..|h| - 1];
      WalkLinked(internal, external, source, base, front, distance - e.distance);
      var cells, shorter := CellsOf(h), CellsOf(front);
      forall i | 0 <= i < |cells| - 1 ensures Joined(internal, external, cells[i], cells[i + 1]) {
        if i < |cells| - 2 {
          assert cells[i] == shorter[i] && cells[i + 1] == shorter[i + 1];
        } else {
          assert (e.from.sector, e.from.cell) == cells[i] && (e.to.sector, e.to.cell) == cells[i + 1];
        }
      }
    }
  }

  /**
   * Along a walk the search alternates: its `i`-th step follows an external
   * edge when `i` is even and an internal one when `i` is odd, each from
   * the node before into a node equal to the next.
   */
  lemma {:induction false} WalkAlternates(internal: map<EdgeId, Edge>, external: map<EdgeId, Edge>, source: Node, base: int,
                                          h: seq<Node>, distance: int)
    requires Walk(internal, external, source, base, h, distance)
    ensures forall i :: 0 <= i < |h| - 1 ==>
      exists e :: StepEdge(internal, external, if i % 2 == 0 then External else Internal, h[i], e) && e.to.Id() == h[i + 1].Id()
    decreases |h|
  {
    if |h| > 1 {
      var e :| StepEdge(internal, external, DirectionOf(|h| - 2), h[|h| - 2], e) && e.to.Id() == h[|h| - 1].Id() &&
        Walk(internal, external, source, base, h[..|h| - 1], distance - e.distance);
      var front := h[..|h| - 1];
      WalkAlternates(internal, external, source, base, front, distance - e.distance);
      forall i | 0 <= i < |h| - 1
        ensures exists e :: StepEdge(internal, external, if i % 2 == 0 then External else Internal, h[i], e) && e.to.Id() == h[i + 1].Id()
      {
        if i < |h| - 2 {
          assert front[i] == h[i] && front[i + 1] == h[i + 1];
        } else {
          assert StepEdge(internal, external, if i % 2 == 0 then External else Internal, h[i], e);
        }
      }
    }
  }

  /**
   * A queue entry of a search from `source`: the direction it explores is
   * the one its depth calls for, and its history and node form a route of
   * total distance `distance` whose score is the source's weight for the
   * source entry and otherwise `distance` plus the weight of the node the
   * last edge reached.
   */
  ghost predicate ItemOK(internal: map<EdgeId, Edge>, external: map<EdgeId, Edge>, source: Node, base: int, q: QueueItem) {
    q.direction == DirectionOf(|q.history|) &&
    Route(internal, external, source, base, q.history + [q.node], q.distance, if q.history == [] then q.score else q.score - q.distance)
  }

  /** The entry `astar` builds for the target of edge `e` taken from `current`. */
  function NextItem(current: QueueItem, e: Edge): (r: QueueItem)
    ensures r.node == e.to && r.history == current.history + [current.node] && r.direction == Flip(current.direction)
    ensures r.distance == current.distance + e.distance && r.score == r.distance + e.to.weight as int
  {
    var travelled := current.distance + e.distance;
    QueueItem(e.to, travelled + e.to.weight as int, current.history + [current.node], travelled, Flip(current.direction))
  }

  /** Taking an edge the search follows from a queue entry gives a queue entry. */
  lemma NextItemOK(internal: map<EdgeId, Edge>, external: map<EdgeId, Edge>, source: Node, base: int, current: QueueItem, e: Edge)
    requires ItemOK(internal, external, source, base, current)
    requires StepEdge(internal, external, current.direction, current.node, e)
    ensures ItemOK(internal, external, source, base, NextItem(current, e))
  {
    var h := current.history + [current.node];
    RouteIsWalk(internal, external, source, base, h, current.distance,
                if current.history == [] then current.score else current.score - current.distance);
    WalkExtends(internal, external, source, base, h, current.distance, e);
  }

  /** The queue entry for `next`'s node is one `iter_mut` overwrites: same node, and a score no better than the new one. */
  predicate Improves(q: QueueItem, next: QueueItem) {
    q.node.Id() == next.node.Id() && q.score >= next.score
  }

  /** An entry overwritten with the score, history, distance and direction of `next`, keeping its own node. */
  function Redirected(q: QueueItem, next: QueueItem): (r: QueueItem)
    ensures r.node == q.node && r.score == next.score && r.history == next.history
    ensures r.distance == next.distance && r.direction == next.direction
  {
    q.(score := next.score, history := next.history, distance := next.distance, direction := next.direction)
  }

  /** Overwriting an entry of the same node with a queue entry past the source gives a queue entry. */
  lemma RedirectedOK(internal: map<EdgeId, Edge>, external: map<EdgeId, Edge>, source: Node, base: int, q: QueueItem, next: QueueItem)
    requires ItemOK(internal, external, source, base, next) && next.history != [] && q.node.Id() == next.node.Id()
    ensures ItemOK(internal, external, source, base, Redirected(q, next))
  {
    RouteLastId(internal, external, source, base, next.history, next.node, q.node, next.distance, next.score - next.distance);
  }

  /**
   * The `iter_mut` pass of `astar`: every entry of the new node whose score
   * is no better is overwritten, the others stay, and a new entry is
   * required exactly when none was overwritten.
   */
  method RedirectQueue(queue: seq<QueueItem>, next: QueueItem) returns (r: seq<QueueItem>, required: bool)
    ensures |r| == |queue|
    ensures forall j :: 0 <= j < |queue| ==> r[j] == if Improves(queue[j], next) then Redirected(queue[j], next) else queue[j]
    ensures required <==> forall j :: 0 <= j < |queue| ==> !Improves(queue[j], next)
  {
    r, required := queue, true;
    for j := 0 to |queue|
      invariant |r| == |queue|
      invariant forall i :: 0 <= i < j ==> r[i] == if Improves(queue[i], next) then Redirected(queue[i], next) else queue[i]
      invariant forall i :: j <= i < |queue| ==> r[i] == queue[i]
      invariant required <==> forall i :: 0 <= i < j ==> !Improves(queue[i], next)
    {
      if Improves(r[j], next) {
        required := false;
        r := r[j := Redirected(r[j], next)];
      }
    }
  }

  /** The `iter_mut` pass keeps every entry of the queue a route of the search. */
  lemma RedirectionKeepsItems(internal: map<EdgeId, Edge>, external: map<EdgeId, Edge>, source: Node, base: int,
                              queue: seq<QueueItem>, r: seq<QueueItem>, next: QueueItem)
    requires QueueOK(internal, external, source, base, queue)
    requires ItemOK(internal, external, source, base, next) && next.history != []
    requires |r| == |queue|
    requires forall j :: 0 <= j < |queue| ==> r[j] == if Improves(queue[j], next) then Redirected(queue[j], next) else queue[j]
    ensures QueueOK(internal, external, source, base, r)
  {
    forall q | q in r ensures ItemOK(internal, external, source, base, q) {
      var j :| 0 <= j < |r| && r[j] == q;
      if Improves(queue[j], next) {
        RedirectedOK(internal, external, source, base, queue[j], next);
      } else {
        assert queue[j] in queue;
      }
    }
  }

  /** The nodes reached by a list of edges. */
  function Targets(es: seq<Edge>): set<NodeId> {
    set e | e in es :: e.to.Id()
  }

  /**
   * The body of the loop of `astar` over the edges found, for the entry
   * `next` an edge leads to: the target gets the new score when it has none
   * or a worse one, and its queue entry is then overwritten or added.
   */
  method ProcessEdge(ghost internal: map<EdgeId, Edge>, ghost external: map<EdgeId, Edge>, ghost source: Node, ghost base: int,
                     queue: seq<QueueItem>, scores: map<NodeId, int>, next: QueueItem)
    returns (queue': seq<QueueItem>, scores': map<NodeId, int>)
    requires QueueOK(internal, external, source, base, queue)
    requires ItemOK(internal, external, source, base, next) && next.history != []
    ensures QueueOK(internal, external, source, base, queue')
    ensures scores'.Keys == scores.Keys + {next.node.Id()}
    ensures forall k :: k in scores && k != next.node.Id() ==> scores'[k] == scores[k]
    ensures scores'[next.node.Id()] == if next.node.Id() in scores && scores[next.node.Id()] <= next.score then scores[next.node.Id()] else next.score
  {
    queue', scores' := queue, scores;
    if next.node.Id() in scores {
      if scores[next.node.Id()] > next.score {
        scores' := scores[next.node.Id() := next.score];
        var redirected, required := RedirectQueue(queue, next);
        RedirectionKeepsItems(internal, external, source, base, queue, redirected, next);
        queue' := redirected;
        if required {
          queue' := queue' + [next];
        }
      }
    } else {
      scores' := scores[next.node.Id() := next.score];
      queue' := queue + [next];
    }
  }

  /** Every entry of the queue is a route of the search. */
  ghost predicate QueueOK(internal: map<EdgeId, Edge>, external: map<EdgeId, Edge>, source: Node, base: int, queue: seq<QueueItem>) {
    forall q :: q in queue ==> ItemOK(internal, external, source, base, q)
  }

  /**
   * The scores after processing the edges `es` found from `current`: every
   * target of an edge has a score no worse than the route through
   * `current`, and no score got worse.
   */
  ghost predicate ScoresBound(scores: map<NodeId, int>, now: map<NodeId, int>, current: QueueItem, es: seq<Edge>) {
    now.Keys == scores.Keys + Targets(es) &&
    (forall k :: k in scores ==> now[k] <= scores[k]) &&
    (forall e :: e in es ==> now[e.to.Id()] <= NextItem(current, e).score)
  }

  /** Processing one more edge keeps the scores bounded. */
  lemma ScoresStep(scores: map<NodeId, int>, mid: map<NodeId, int>, now: map<NodeId, int>, current: QueueItem, es: seq<Edge>, e: Edge)
    requires ScoresBound(scores, mid, current, es)
    requires now.Keys == mid.Keys + {e.to.Id()}
    requires forall k :: k in mid && k != e.to.Id() ==> now[k] == mid[k]
    requires now[e.to.Id()] == if e.to.Id() in mid && mid[e.to.Id()] <= NextItem(current, e).score then mid[e.to.Id()] else NextItem(current, e).score
    ensures ScoresBound(scores, now, current, es + [e])
  {
    assert Targets(es + [e]) == Targets(es) + {e.to.Id()};
  }

  /**
   * The loop of `astar` over the edges found from the entry `current`: each
   * edge's target gets the new score when it has none or a worse one, and
   * its queue entry is then overwritten or added. Afterwards every target
   * has a score no worse than the route through `current`, no score got
   * worse, and the queue still holds only routes of the search.
   */
  method ProcessNeighbours(ghost internal: map<EdgeId, Edge>, ghost external: map<EdgeId, Edge>, ghost source: Node, ghost base: int,
                           queue: seq<QueueItem>, scores: map<NodeId, int>, current: QueueItem, neighbours: seq<Edge>)
    returns (queue': seq<QueueItem>, scores': map<NodeId, int>)
    requires QueueOK(internal, external, source, base, queue)
    requires ItemOK(internal, external, source, base, current)
    requires forall e :: e in neighbours ==> StepEdge(internal, external, current.direction, current.node, e)
    ensures QueueOK(internal, external, source, base, queue')
    ensures ScoresBound(scores, scores', current, neighbours)
  {
    queue', scores' := queue, scores;
    assert neighbours[..0] == [];
    for i := 0 to |neighbours|
      invariant QueueOK(internal, external, source, base, queue')
      invariant ScoresBound(scores, scores', current, neighbours[..i])
    {
      var e := neighbours[i];
      assert neighbours[..i + 1] == neighbours[..i] + [e];
      assert e in neighbours;
      NextItemOK(internal, external, source, base, current, e);
      ghost var mid := scores';
      queue', scores' := ProcessEdge(internal, external, source, base, queue', scores', NextItem(current, e));
      ScoresStep(scores, mid, scores', current, neighbours[..i], e);
    }
    assert neighbours[..|neighbours|] == neighbours;
  }

  /** The score a queue entry is sorted by. */
  function ScoreOf(q: QueueItem): int {
    q.score
  }

  /** Every entry of a queue whose entries all come from a queue of routes is a route. */
  lemma KeptItems(internal: map<EdgeId, Edge>, external: map<EdgeId, Edge>, source: Node, base: int, a: seq<QueueItem>, b: seq<QueueItem>)
    requires multiset(a) <= multiset(b)
    requires QueueOK(internal, external, source, base, b)
    ensures QueueOK(internal, external, source, base, a)
  {
    forall q | q in a ensures ItemOK(internal, external, source, base, q) {
      assert q in multiset(a);
      assert q in multiset(b);
    }
  }

  /**
   * One round of `astar` after the entry `current` is taken off the queue:
   * the edges of the kind it explores are found and processed, and the
   * queue is sorted by score; it still holds only routes of the search.
   */
  method ExploreFrom(graph: PortalGraph, ghost source: Node, ghost base: int, queue: seq<QueueItem>, scores: map<NodeId, int>, current: QueueItem)
    returns (queue': seq<QueueItem>, scores': map<NodeId, int>)
    requires QueueOK(graph.edgesInternal, graph.edgesExternal, source, base, queue)
    requires ItemOK(graph.edgesInternal, graph.edgesExternal, source, base, current)
    ensures QueueOK(graph.edgesInternal, graph.edgesExternal, source, base, queue')
    ensures SortedBy(queue', ScoreOf)
  {
    var neighbours;
    if current.direction == Internal {
      neighbours := FindEdgesInternal(graph, current.node);
    } else {
      neighbours := FindEdgesExternal(graph, current.node);
    }
    var processed;
    processed, scores' := ProcessNeighbours(graph.edgesInternal, graph.edgesExternal, source, base, queue, scores, current, neighbours);
    queue' := SortBy(processed, ScoreOf);
    KeptItems(graph.edgesInternal, graph.edgesExternal, source, base, queue', processed);
  }

  /** The entry of the source node that every search starts from. */
  function StartItem(source: Node, sourceDistance: int): QueueItem {
    QueueItem(source, source.weight as int, [], sourceDistance, External)
  }

  /**
   * The loop of `astar`: the entry of the target once the queue presents
   * it first, `None` when the queue empties, when the first entry already
   * scores worse than `bestScore`, or after `fuel` rounds. An entry it
   * returns is a route of the search to a node equal to the target; the
   * source's own entry when source and target are equal.
   */
  method Search(graph: PortalGraph, bestScore: Option<int>, source: Node, target: Node, sourceDistance: int, fuel: nat)
    returns (found: Option<QueueItem>)
    ensures source.Id() == target.Id() ==> found == Some(StartItem(source, sourceDistance))
    ensures bestScore.Some? && bestScore.value < source.weight as int && source.Id() != target.Id() ==> found.None?
    ensures found.Some? ==> (found.value.node.Id() == target.Id() &&
      ItemOK(graph.edgesInternal, graph.edgesExternal, source, sourceDistance, found.value))
  {
    var scores := map[source.Id() := source.weight as int];
    var queue := [StartItem(source, sourceDistance)];
    ghost var popped := false;
    var rounds := fuel;
    while queue[0].node.Id() != target.Id()
      invariant queue != []
      invariant QueueOK(graph.edgesInternal, graph.edgesExternal, source, sourceDistance, queue)
      invariant !popped ==> queue == [StartItem(source, sourceDistance)]
      invariant popped ==> source.Id() != target.Id() && !(bestScore.Some? && bestScore.value < source.weight as int)
      decreases rounds
    {
      if rounds == 0 {
        return None;
      }
      rounds := rounds - 1;
      var current := queue[0];
      var rest := SwapRemoveFirst(queue);
      KeptItems(graph.edgesInternal, graph.edgesExternal, source, sourceDistance, rest, queue);
      queue := rest;
      if bestScore.Some? && bestScore.value < current.score {
        return None;
      }
      popped := true;
      queue, scores := ExploreFrom(graph, source, sourceDistance, queue, scores, current);
      if queue == [] {
        return None;
      }
    }
    assert queue[0] in queue;
    found := Some(queue[0]);
  }

  /**
   * `astar`: `None` when either end is not a node of the graph; the one-node
   * path when source and target are equal; `None` when the first entry
   * already scores worse than `bestScore`. A path it returns ends with the
   * target, and is a route of the graph from the source, alternating
   * external and internal edges, whose score is its distance (from
   * `sourceDistance`) plus the weight of the node its last edge reached.
   * The search stops after `fuel` rounds.
   */
  method AStar(graph: PortalGraph, bestScore: Option<int>, source: Node, target: Node, sourceDistance: int, fuel: nat)
    returns (r: Option<(int, seq<Node>)>)
    ensures source.Id() !in graph.nodes || target.Id() !in graph.nodes ==> r.None?
    ensures source.Id() in graph.nodes && target.Id() in graph.nodes && source.Id() == target.Id() ==>
      r == Some((source.weight as int, [target]))
    ensures bestScore.Some? && bestScore.value < source.weight as int && source.Id() != target.Id() ==> r.None?
    ensures r.Some? ==> (|r.value.1| >= 1 && r.value.1[|r.value.1| - 1] == target &&
      exists d :: Found(graph.edgesInternal, graph.edgesExternal, source, sourceDistance, r.value.1, r.value.0, d))
  {
    if source.Id() !in graph.nodes || target.Id() !in graph.nodes {
      return None;
    }
    var found := Search(graph, bestScore, source, target, sourceDistance, fuel);
    if found.None? {
      return None;
    }
    var item := found.value;
    RouteLastId(graph.edgesInternal, graph.edgesExternal, source, sourceDistance, item.history, item.node, target,
                item.distance, if item.history == [] then item.score else item.score - item.distance);
    r := Some((item.score, item.history + [target]));
    assert Found(graph.edgesInternal, graph.edgesExternal, source, sourceDistance, r.value.1, r.value.0, item.distance);
  }

  /** The best path found so far: a score and the `(sector, cell)` of every step. */
  type BestPath = Option<(int, seq<(SectorID, FieldCell)>)>

  /** `cells` starts at the cell of `a`, ends at the cell of `b`, and runs along edges of the graph. */
  ghost predicate CellRoute(internal: map<EdgeId, Edge>, external: map<EdgeId, Edge>, a: Node, b: Node, cells: seq<(SectorID, FieldCell)>) {
    |cells| >= 1 && cells[0] == (a.sector, a.cell) && cells[|cells| - 1] == (b.sector, b.cell) && Linked(internal, external, cells)
  }

  /** The loop of `find_path_between_sector_portals` that turns the nodes of a path into their `(sector, cell)`. */
  method ExtractCells(path: seq<Node>) returns (p: seq<(SectorID, FieldCell)>)
    ensures p == CellsOf(path)
  {
    p := [];
    for i := 0 to |path|
      invariant p == CellsOf(path[..i])
    {
      assert path[..i + 1] == path[..i] + [path[i]];
      p := p + [(path[i].sector, path[i].cell)];
    }
    assert path[..|path|] == path;
  }

  /**
   * `find_path_between_sector_portals`: the best path is replaced only by a
   * path the search finds with a strictly smaller score, or set when there
   * was none; a path it stores runs along the graph from the source node
   * to the target node.
   */
  method FindPathBetweenSectorPortals(graph: PortalGraph, best: BestPath, source: Node, target: Node, sourceDistance: int, fuel: nat)
    returns (r: BestPath)
    ensures r == best || (r.Some? && (best.None? || r.value.0 < best.value.0) &&
      CellRoute(graph.edgesInternal, graph.edgesExternal, source, target, r.value.1))
    ensures best.Some? ==> r.Some? && r.value.0 <= best.value.0
  {
    var currentBest := if best.Some? then Some(best.value.0) else None;
    var found := AStar(graph, currentBest, source, target, sourceDistance, fuel);
    r := best;
    if found.Some? {
      var path := found.value.1;
      ghost var d :| Found(graph.edgesInternal, graph.edgesExternal, source, sourceDistance, path, found.value.0, d);
      RouteIsWalk(graph.edgesInternal, graph.edgesExternal, source, sourceDistance, path, d,
                  if |path| == 1 then found.value.0 else found.value.0 - d);
      WalkLinked(graph.edgesInternal, graph.edgesExternal, source, sourceDistance, path, d);
      var p := ExtractCells(path);
      if best.Some? {
        if best.value.0 > found.value.0 {
          r := Some((found.value.0, p));
        }
      } else {
        r := Some((found.value.0, p));
      }
    }
  }

  /** `cell` is `from` itself or reached from it over pathable cells of `field`. */
  ghost predicate ReachedFrom(field: CostField, from: FieldCell, cell: FieldCell) {
    cell == from || Connected(field.costs, from, cell)
  }

  /** The `(cell, side)` pairs of a list of source portals. */
  function PortalsOf(r: seq<(FieldCell, Ordinal, int)>): set<(FieldCell, Ordinal)> {
    set i | 0 <= i < |r| :: (r[i].0, r[i].1)
  }

  /** The pairs of two lists joined are those of each. */
  lemma PortalsOfConcat(r: seq<(FieldCell, Ordinal, int)>, more: seq<(FieldCell, Ordinal, int)>)
    ensures PortalsOf(r + more) == PortalsOf(r) + PortalsOf(more)
  {
    forall x | x in PortalsOf(r + more) ensures x in PortalsOf(r) + PortalsOf(more) {
      var i :| 0 <= i < |r + more| && ((r + more)[i].0, (r + more)[i].1) == x;
      if i >= |r| {
        assert more[i - |r|] == (r + more)[i];
      }
    }
    forall x | x in PortalsOf(r) + PortalsOf(more) ensures x in PortalsOf(r + more) {
      if x in PortalsOf(r) {
        var i :| 0 <= i < |r| && (r[i].0, r[i].1) == x;
        assert (r + more)[i] == r[i];
      } else {
        var i :| 0 <= i < |more| && (more[i].0, more[i].1) == x;
        assert (r + more)[|r| + i] == more[i];
      }
    }
  }

  /** The inner loop of `find_best_path` over the portals of one side that the source cell can reach, with their distances. */
  method SideSourcePortals(field: CostField, from: FieldCell, side: Ordinal, cells: seq<FieldCell>) returns (r: seq<(FieldCell, Ordinal, int)>)
    ensures forall i :: 0 <= i < |r| ==> r[i].0 in cells && r[i].1 == side && ReachedFrom(field, from, r[i].0) && 0 <= r[i].2 < 255 && DistanceBetween(field, from, r[i].0) == Some(r[i].2)
    ensures forall c :: c in cells && ReachedFrom(field, from, c) ==> (c, side) in PortalsOf(r)
  {
    r := [];
    for j := 0 to |cells|
      invariant forall i :: 0 <= i < |r| ==> r[i].0 in cells && r[i].1 == side && ReachedFrom(field, from, r[i].0) && 0 <= r[i].2 < 255 && DistanceBetween(field, from, r[i].0) == Some(r[i].2)
      invariant forall c :: c in cells[..j] && ReachedFrom(field, from, c) ==> (c, side) in PortalsOf(r)
    {
      assert cells[..j + 1] == cells[..j] + [cells[j]];
      var distance;
      ghost var stepCosts;
      distance, stepCosts := GetDistanceBetweenCells(field, from, cells[j]);
      if distance.Some? {
        PortalsOfConcat(r, [(cells[j], side, distance.value)]);
        assert PortalsOf([(cells[j], side, distance.value)]) == {(cells[j], side)} by {
          assert [(cells[j], side, distance.value)][0] == (cells[j], side, distance.value);
        }
        r := r + [(cells[j], side, distance.value)];
      }
    }
    assert cells[..|cells|] == cells;
  }

  /** The source portals of `find_best_path`: every portal of the sector, side by side, that the source cell reaches. */
  method SourcePortals(field: CostField, p: Portals, from: FieldCell) returns (r: seq<(FieldCell, Ordinal, int)>)
    ensures forall i :: 0 <= i < |r| ==> IsOrthogonal(r[i].1) && r[i].0 in SideCells(p, r[i].1) && ReachedFrom(field, from, r[i].0) && 0 <= r[i].2 < 255 && DistanceBetween(field, from, r[i].0) == Some(r[i].2)
    ensures forall side, c :: IsOrthogonal(side) && c in SideCells(p, side) && ReachedFrom(field, from, c) ==> (c, side) in PortalsOf(r)
  {
    r := [];
    for o := 0 to |EDGE_ORDER|
      invariant forall i :: 0 <= i < |r| ==> IsOrthogonal(r[i].1) && r[i].0 in SideCells(p, r[i].1) && ReachedFrom(field, from, r[i].0) && 0 <= r[i].2 < 255 && DistanceBetween(field, from, r[i].0) == Some(r[i].2)
      invariant forall side, c :: side in EDGE_ORDER[..o] && c in SideCells(p, side) && ReachedFrom(field, from, c) ==> (c, side) in PortalsOf(r)
    {
      var side := EDGE_ORDER[o];
      assert EDGE_ORDER[..o + 1] == EDGE_ORDER[..o] + [side];
      var more := SideSourcePortals(field, from, side, SideCells(p, side));
      PortalsOfConcat(r, more);
      r := r + more;
    }
    assert EDGE_ORDER[..|EDGE_ORDER|] == EDGE_ORDER;
  }

  /** The inner loop of `find_best_path` over the portals of one side that reach the target cell. */
  method SideTargetPortals(field: CostField, goal: FieldCell, side: Ordinal, cells: seq<FieldCell>) returns (r: seq<(FieldCell, Ordinal)>)
    ensures forall x :: x in r <==> x.0 in cells && x.1 == side && ReachedFrom(field, goal, x.0)
  {
    r := [];
    for j := 0 to |cells|
      invariant forall x :: x in r <==> x.0 in cells[..j] && x.1 == side && ReachedFrom(field, goal, x.0)
    {
      assert cells[..j + 1] == cells[..j] + [cells[j]];
      var reachable := IsCellPairReachable(field, goal, cells[j]);
      if reachable {
        r := r + [(cells[j], side)];
      }
    }
    assert cells[..|cells|] == cells;
  }

  /** The target portals of `find_best_path`: every portal of the sector, side by side, that reaches the target cell. */
  method TargetPortals(field: CostField, p: Portals, goal: FieldCell) returns (r: seq<(FieldCell, Ordinal)>)
    ensures forall x :: x in r <==> IsOrthogonal(x.1) && x.0 in SideCells(p, x.1) && ReachedFrom(field, goal, x.0)
  {
    r := [];
    for o := 0 to |EDGE_ORDER|
      invariant forall x :: x in r <==> x.1 in EDGE_ORDER[..o] && x.0 in SideCells(p, x.1) && ReachedFrom(field, goal, x.0)
    {
      assert EDGE_ORDER[..o + 1] == EDGE_ORDER[..o] + [EDGE_ORDER[o]];
      var more := SideTargetPortals(field, goal, EDGE_ORDER[o], SideCells(p, EDGE_ORDER[o]));
      r := r + more;
    }
    assert EDGE_ORDER[..|EDGE_ORDER|] == EDGE_ORDER;
  }

  /**
   * What a path `find_best_path` returns satisfies: it starts in the source
   * sector at a cell the source cell reaches, ends in the target sector at
   * a cell that reaches the target cell, and runs along edges of the graph.
   */
  ghost predicate BestPathFits(graph: PortalGraph, scaled: map<SectorID, CostField>, source: (SectorID, FieldCell), target: (SectorID, FieldCell),
                               cells: seq<(SectorID, FieldCell)>)
    reads graph
    requires source.0 in scaled && target.0 in scaled
  {
    |cells| >= 1 &&
    cells[0].0 == source.0 && ReachedFrom(scaled[source.0], source.1, cells[0].1) &&
    cells[|cells| - 1].0 == target.0 && ReachedFrom(scaled[target.0], target.1, cells[|cells| - 1].1) &&
    Linked(graph.edgesInternal, graph.edgesExternal, cells)
  }

  /** The loop of `find_best_path` over the target portals, for one source portal. */
  method TryTargets(graph: PortalGraph, scaled: map<SectorID, CostField>, source: (SectorID, FieldCell), target: (SectorID, FieldCell),
                    best: BestPath, from: Node, sourceDistance: int, targetWeight: U8, targets: seq<(FieldCell, Ordinal)>, fuel: nat)
    returns (r: BestPath)
    requires source.0 in scaled && target.0 in scaled
    requires from.sector == source.0 && ReachedFrom(scaled[source.0], source.1, from.cell)
    requires forall x :: x in targets ==> ReachedFrom(scaled[target.0], target.1, x.0)
    requires best.Some? ==> BestPathFits(graph, scaled, source, target, best.value.1)
    ensures r.Some? ==> BestPathFits(graph, scaled, source, target, r.value.1)
    ensures best.Some? ==> r.Some? && r.value.0 <= best.value.0
  {
    r := best;
    for j := 0 to |targets|
      invariant r.Some? ==> BestPathFits(graph, scaled, source, target, r.value.1)
      invariant best.Some? ==> r.Some? && r.value.0 <= best.value.0
    {
      var (portal, side) := targets[j];
      assert targets[j] in targets;
      var to := Node(target.0, portal, targetWeight, side);
      r := FindPathBetweenSectorPortals(graph, r, from, to, sourceDistance, fuel);
    }
  }

  /**
   * `find_best_path`: when source and target share a sector and the source
   * reaches the target, a route is always found (the direct one at least);
   * any route found starts where the source cell can go, ends where the
   * target cell can be reached from, and runs along edges of the graph.
   * The source and target sectors must have scaled costs and portals, which
   * the source `unwrap`s.
   */
  method FindBestPath(graph: PortalGraph, source: (SectorID, FieldCell), target: (SectorID, FieldCell),
                      sectorPortals: map<SectorID, Portals>, scaled: map<SectorID, CostField>, fuel: nat)
    returns (r: Option<seq<(SectorID, FieldCell)>>)
    requires source.0 in scaled && source.0 in sectorPortals && target.0 in scaled && target.0 in sectorPortals
    ensures source.0 == target.0 && ReachedFrom(scaled[source.0], source.1, target.1) ==> r.Some?
    ensures r.Some? ==> BestPathFits(graph, scaled, source, target, r.value)
  {
    var sourceField := scaled[source.0];
    var sourceWeight := GetCost(sourceField, source.1);
    var sources := SourcePortals(sourceField, sectorPortals[source.0], source.1);
    var targetField := scaled[target.0];
    var targetWeight := GetCost(targetField, target.1);
    var targets := TargetPortals(targetField, sectorPortals[target.0], target.1);
    var best: BestPath := None;
    if source.0 == target.0 {
      var cost;
      ghost var stepCosts;
      cost, stepCosts := GetDistanceBetweenCells(sourceField, source.1, target.1);
      if cost.Some? {
        best := Some((cost.value, [target]));
      }
    }
    for i := 0 to |sources|
      invariant best.Some? ==> BestPathFits(graph, scaled, source, target, best.value.1)
      invariant source.0 == target.0 && ReachedFrom(scaled[source.0], source.1, target.1) ==> best.Some?
    {
      var (portal, side, distance) := sources[i];
      var from := Node(source.0, portal, sourceWeight, side);
      best := TryTargets(graph, scaled, source, target, best, from, distance, targetWeight, targets, fuel);
    }
    r := if best.Some? then Some(best.value.1) else None;
  }
}
