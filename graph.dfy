/**
 * The portal graph (src/flowfields/portal/portal_graph.rs): a node for every
 * portal of every sector, internal edges between the portals of one sector
 * that can reach each other, and external edges across each sector
 * boundary. This module holds the graph, its mutation and its building; the
 * search over it is in module GraphSearch.
 *
 * The source keeps `HashSet`s of nodes and edges whose equality leaves out
 * some fields. A set of such values is modelled as a map from the fields
 * that equality compares to the value stored, and an insertion of a value
 * already present by that equality keeps the stored one, as `HashSet::insert`
 * does.
 */
module Graph {
  import opened Options
  import opened Geometry
  import opened Grids
  import opened Sectors
  import opened FieldCost
  import opened Reachability
  import opened Portal

  /** `SECTOR_BOUNDARY_PORTAL_PORTAL_DISTANCE`: the distance of every external edge. */
  const SECTOR_BOUNDARY_PORTAL_PORTAL_DISTANCE: int := 1

  /** What `Node` equality compares: sector, portal cell and side. */
  datatype NodeId = NodeId(sector: SectorID, cell: FieldCell, side: Ordinal)

  /** `Node`: a portal cell of a sector on one side, with the cost of that cell. */
  datatype Node = Node(sector: SectorID, cell: FieldCell, weight: U8, side: Ordinal) {
    /** `PartialEq for Node`: the fields equality compares, the weight left out. */
    function Id(): NodeId {
      NodeId(sector, cell, side)
    }

    /** `is_in_sector`. */
    predicate IsInSector(compare: SectorID) {
      sector == compare
    }
  }

  /** What `Edge` equality compares: its two ends, each by node equality. */
  datatype EdgeId = EdgeId(from: NodeId, to: NodeId)

  /** `Edge`: a directed link between two nodes with the distance travelled along it. */
  datatype Edge = Edge(from: Node, to: Node, distance: int) {
    /** `PartialEq for Edge`: the two ends, the distance left out. */
    function Id(): EdgeId {
      EdgeId(from.Id(), to.Id())
    }
  }

  /**
   * Two nodes are equal exactly when their sector, cell and side agree,
   * whatever their weights; two edges are equal exactly when their ends
   * are, whatever their distances.
   */
  lemma EqualityMeaning(a: Node, b: Node, e: Edge, f: Edge)
    ensures a.Id() == b.Id() <==> a.sector == b.sector && a.cell == b.cell && a.side == b.side
    ensures a.Id() == b.Id() ==> a.Id() == b.(weight := a.weight).Id() && (a.weight == b.weight ==> a == b)
    ensures e.Id() == f.Id() <==> e.from.Id() == f.from.Id() && e.to.Id() == f.to.Id()
    ensures e.Id() == f.Id() ==> (e.from == f.from && e.to == f.to && e.distance == f.distance ==> e == f)
  {
  }

  /** A set of nodes as the source's `HashSet` sees it: each stored node under the fields equality compares. */
  ghost predicate NodeSet(ns: map<NodeId, Node>) {
    forall k :: k in ns ==> ns[k].Id() == k
  }

  /** A set of edges as the source's `HashSet` sees it. */
  ghost predicate EdgeSet(es: map<EdgeId, Edge>) {
    forall k :: k in es ==> es[k].Id() == k
  }

  /** `HashSet::insert` of a node: the stored node stays when an equal one is present. */
  function WithNode(ns: map<NodeId, Node>, n: Node): (r: map<NodeId, Node>)
    ensures n.Id() in r && r.Keys == ns.Keys + {n.Id()}
    ensures forall k :: k in ns ==> r[k] == ns[k]
    ensures n.Id() !in ns ==> r[n.Id()] == n
  {
    InsertAbsent(ns, n.Id(), n)
  }

  /** `HashSet::insert` of an edge: the stored edge stays when an equal one is present. */
  function WithEdge(es: map<EdgeId, Edge>, e: Edge): (r: map<EdgeId, Edge>)
    ensures e.Id() in r && r.Keys == es.Keys + {e.Id()}
    ensures forall k :: k in es ==> r[k] == es[k]
    ensures e.Id() !in es ==> r[e.Id()] == e
  {
    InsertAbsent(es, e.Id(), e)
  }

  /**
   * Insertion into a set whose elements are identified by a key: the
   * element already stored under `k` stays, otherwise `v` is stored.
   */
  function InsertAbsent<K, V>(m: map<K, V>, k: K, v: V): (r: map<K, V>)
    ensures k in r && r.Keys == m.Keys + {k}
    ensures forall j :: j in m ==> r[j] == m[j]
    ensures k !in m ==> r[k] == v
  {
    if k in m then m else m[k := v]
  }

  /** Inserting a node or an edge a second time changes nothing: the sets hold no duplicates. */
  lemma InsertIdempotent(ns: map<NodeId, Node>, n: Node, m: Node, es: map<EdgeId, Edge>, e: Edge, f: Edge)
    requires m.Id() == n.Id() && f.Id() == e.Id()
    ensures WithNode(WithNode(ns, n), m) == WithNode(ns, n)
    ensures |WithNode(ns, n)| == if n.Id() in ns then |ns| else |ns| + 1
    ensures WithEdge(WithEdge(es, e), f) == WithEdge(es, e)
    ensures |WithEdge(es, e)| == if e.Id() in es then |es| else |es| + 1
  {
  }

  /** The edges left once every edge starting or ending at `id` is dropped. */
  function Detached(es: map<EdgeId, Edge>, id: NodeId): (r: map<EdgeId, Edge>)
    ensures forall k :: k in r <==> k in es && k.from != id && k.to != id
    ensures forall k :: k in r ==> r[k] == es[k]
  {
    map k | k in es && k.from != id && k.to != id :: es[k]
  }

  /** `Direction`: which kind of edge a search step follows next. */
  datatype Direction = Internal | External

  /** `Direction::flip`. */
  function Flip(d: Direction): Direction {
    if d == Internal then External else Internal
  }

  /** Flipping always changes the direction, and flipping twice gives it back. */
  lemma FlipInvolution(d: Direction)
    ensures Flip(d) != d && Flip(Flip(d)) == d
  {
  }

  /** The node a portal of `id` on `side` becomes, weighted by the cost of its cell in `field`. */
  function NodeOf(k: NodeId, field: CostField): Node {
    Node(k.sector, k.cell, GetCost(field, k.cell), k.side)
  }

  /** The portal cells on a side, none for a side that is not orthogonal. */
  function SideCells(p: Portals, side: Ordinal): seq<FieldCell> {
    match PortalsForSide(p, side)
    case Some(cells) => cells
    case None => []
  }

  /** The four sides in the order `create_sector_nodes` visits them. */
  const NODE_ORDER: seq<Ordinal> := [North, East, South, West]

  /** The four sides in the order `create_sector_internal_edges` and `find_best_path` visit them. */
  const EDGE_ORDER: seq<Ordinal> := [North, South, West, East]

  /** `k` is the node of a portal of sector `id`. */
  ghost predicate IsSectorNode(id: SectorID, p: Portals, k: NodeId) {
    k.sector == id && IsOrthogonal(k.side) && k.cell in SideCells(p, k.side)
  }

  /** The `(cell, side)` list of `create_sector_internal_edges`: every portal, side by side in North, South, West, East order. */
  function PortalList(p: Portals): (r: seq<(FieldCell, Ordinal)>)
    ensures forall c, side :: (c, side) in r <==> IsOrthogonal(side) && c in SideCells(p, side)
  {
    var l := seq(|p.north|, i requires 0 <= i < |p.north| => (p.north[i], North))
      + seq(|p.south|, i requires 0 <= i < |p.south| => (p.south[i], South))
      + seq(|p.west|, i requires 0 <= i < |p.west| => (p.west[i], West))
      + seq(|p.east|, i requires 0 <= i < |p.east| => (p.east[i], East));
    assert forall c, side :: (c, side) in l <==> IsOrthogonal(side) && c in SideCells(p, side) by {
      forall c, side ensures (c, side) in l <==> IsOrthogonal(side) && c in SideCells(p, side) {
        if IsOrthogonal(side) && c in SideCells(p, side) {
          var s := SideCells(p, side);
          var i :| 0 <= i < |s| && s[i] == c;
          if side == North { assert l[i] == (c, side); }
          else if side == South { assert l[|p.north| + i] == (c, side); }
          else if side == West { assert l[|p.north| + |p.south| + i] == (c, side); }
          else { assert l[|p.north| + |p.south| + |p.west| + i] == (c, side); }
        }
      }
    }
    l
  }

  /** The cost of a node's cell in its sector's scaled field; no sector, no cost. */
  function WeightOf(scaled: map<SectorID, CostField>, k: NodeId): U8 {
    if k.sector in scaled then GetCost(scaled[k.sector], k.cell) else 0
  }

  /** The node with the fields `k`, weighted as the building passes weight it. */
  function NodeAt(scaled: map<SectorID, CostField>, k: NodeId): Node {
    Node(k.sector, k.cell, WeightOf(scaled, k), k.side)
  }

  /** `k` is the node of a portal of some sector of `portals`. */
  ghost predicate IsPortalNode(portals: map<SectorID, Portals>, k: NodeId) {
    k.sector in portals && IsSectorNode(k.sector, portals[k.sector], k)
  }

  /**
   * The pair `(a, b)` of `create_sector_internal_edges`: two different
   * entries of the portal list whose cells are the same or joined by a
   * route, and `k` is the edge from the first to the second.
   */
  ghost predicate InternalPair(id: SectorID, field: CostField, l: seq<(FieldCell, Ordinal)>, a: int, b: int, k: EdgeId) {
    0 <= a < |l| && 0 <= b < |l| && a != b &&
    (l[a].0 == l[b].0 || Connected(field.costs, l[a].0, l[b].0)) &&
    k == EdgeId(NodeId(id, l[a].0, l[a].1), NodeId(id, l[b].0, l[b].1))
  }

  /** `k` is an internal edge of sector `id`: between two of its portals that reach each other. */
  ghost predicate IsInternalKey(id: SectorID, field: CostField, p: Portals, k: EdgeId) {
    exists a, b :: InternalPair(id, field, PortalList(p), a, b, k)
  }

  /** `k` is an internal edge of some sector of `portals`, judged by that sector's scaled costs. */
  ghost predicate IsInternalEdge(portals: map<SectorID, Portals>, scaled: map<SectorID, CostField>, k: EdgeId) {
    k.from.sector in portals && k.from.sector in scaled &&
    IsInternalKey(k.from.sector, scaled[k.from.sector], portals[k.from.sector], k)
  }

  /**
   * An internal edge as `create_sector_internal_edges` stores it: both ends
   * weighted by `field`, and the distance `get_distance_between_cells` gives
   * between its cells over `field`, which lies below 255 and is 1 between two
   * entries of the same cell.
   */
  ghost predicate InternalEdgeFits(field: CostField, e: Edge) {
    e.from == NodeOf(e.from.Id(), field) && e.to == NodeOf(e.to.Id(), field) &&
    0 <= e.distance < 255 && (e.from.cell == e.to.cell ==> e.distance == 1) &&
    DistanceBetween(field, e.from.cell, e.to.cell) == Some(e.distance)
  }

  /**
   * Position `i` of the external pass across `side` into sector `n`: `k`
   * links the `i`-th portal of `id` on that side to the `i`-th portal of
   * `n` on the inverse side.
   */
  ghost predicate ExternalAt(portals: map<SectorID, Portals>, id: SectorID, p: Portals, nb: (Ordinal, SectorID), i: int, k: EdgeId) {
    nb.1 in portals && 0 <= i < |SideCells(p, nb.0)| && i < |SideCells(portals[nb.1], Inverse(nb.0))| &&
    k == EdgeId(NodeId(id, SideCells(p, nb.0)[i], nb.0), NodeId(nb.1, SideCells(portals[nb.1], Inverse(nb.0))[i], Inverse(nb.0)))
  }

  /** `k` is an external edge from sector `id` into one of the listed neighbours. */
  ghost predicate IsExternalKey(portals: map<SectorID, Portals>, id: SectorID, p: Portals, neighbours: seq<(Ordinal, SectorID)>, k: EdgeId) {
    exists t, i :: 0 <= t < |neighbours| && ExternalAt(portals, id, p, neighbours[t], i, k)
  }

  /** The external edge with the ends `k`, as `create_sector_external_edges` stores it. */
  function ExternalEdgeOf(scaled: map<SectorID, CostField>, k: EdgeId): Edge {
    Edge(NodeAt(scaled, k.from), NodeAt(scaled, k.to), SECTOR_BOUNDARY_PORTAL_PORTAL_DISTANCE)
  }

  /**
   * What the external pass over `neighbours` demands: the neighbours' cost
   * fields and portals exist, and each neighbour has at least as many
   * portals on its facing side as `id` has on its own, since the source
   * indexes the neighbour's list by position.
   */
  ghost predicate ExternalReady(portals: map<SectorID, Portals>, scaled: map<SectorID, CostField>, id: SectorID, p: Portals, neighbours: seq<(Ordinal, SectorID)>) {
    (neighbours != [] ==> id in scaled) &&
    forall t :: 0 <= t < |neighbours| ==>
      IsOrthogonal(neighbours[t].0) && neighbours[t].1 in scaled && neighbours[t].1 in portals &&
      |SideCells(p, neighbours[t].0)| <= |SideCells(portals[neighbours[t].1], Inverse(neighbours[t].0))|
  }

  /** The first `c` elements of `s`, or all of them. */
  function Take<T>(s: seq<T>, c: nat): seq<T> {
    if c <= |s| then s[..c] else s
  }

  /** The node pass over sector `id` has covered the sides ranked below `o`, then `c` cells of side `o`. */
  ghost predicate NodesProgress(before: map<NodeId, Node>, now: map<NodeId, Node>, scaled: map<SectorID, CostField>,
                                id: SectorID, p: Portals, o: nat, c: nat) {
    (forall k :: k in now <==> (k in before || (IsSectorNode(id, p, k) &&
      (OrthogonalRank(k.side) < o || (OrthogonalRank(k.side) == o && k.cell in Take(SideCells(p, k.side), c)))))) &&
    (forall k :: k in now ==> now[k] == if k in before then before[k] else NodeAt(scaled, k))
  }

  /** One node of the node pass. */
  lemma NodesStep(before: map<NodeId, Node>, now: map<NodeId, Node>, scaled: map<SectorID, CostField>,
                  id: SectorID, p: Portals, o: nat, c: nat)
    requires o < 4 && c < |SideCells(p, NODE_ORDER[o])| && NodesProgress(before, now, scaled, id, p, o, c)
    ensures var side := NODE_ORDER[o];
      NodesProgress(before, WithNode(now, NodeAt(scaled, NodeId(id, SideCells(p, side)[c], side))), scaled, id, p, o, c + 1)
  {
    var side := NODE_ORDER[o];
    var cells := SideCells(p, side);
    assert cells[..c + 1] == cells[..c] + [cells[c]];
  }

  /** The node pass moves on from one side to the next. */
  lemma NodesNextSide(before: map<NodeId, Node>, now: map<NodeId, Node>, scaled: map<SectorID, CostField>,
                      id: SectorID, p: Portals, o: nat)
    requires o < 4 && NodesProgress(before, now, scaled, id, p, o, |SideCells(p, NODE_ORDER[o])|)
    ensures NodesProgress(before, now, scaled, id, p, o + 1, 0)
  {
    var cells := SideCells(p, NODE_ORDER[o]);
    assert cells[..|cells|] == cells;
  }

  /** The internal pass has covered the pairs `(a, b)` before `(i, j)` in row order. */
  ghost predicate PairBefore(id: SectorID, field: CostField, l: seq<(FieldCell, Ordinal)>, k: EdgeId, i: int, j: int) {
    exists a, b :: InternalPair(id, field, l, a, b, k) && (a < i || (a == i && b < j))
  }

  /** The edge set as the internal pass leaves it once it has reached the pair `(i, j)`. */
  ghost predicate InternalProgress(before: map<EdgeId, Edge>, now: map<EdgeId, Edge>, id: SectorID, field: CostField,
                                   l: seq<(FieldCell, Ordinal)>, i: int, j: int) {
    (forall k :: k in now <==> k in before || PairBefore(id, field, l, k, i, j)) &&
    (forall k :: k in before ==> now[k] == before[k]) &&
    (forall k :: k in now && k !in before ==> InternalEdgeFits(field, now[k]))
  }

  /** The edge the internal pass adds for the pair `(i, j)` with distance `d`. */
  function PairEdge(id: SectorID, field: CostField, l: seq<(FieldCell, Ordinal)>, i: nat, j: nat, d: int): Edge
    requires i < |l| && j < |l|
  {
    Edge(Node(id, l[i].0, GetCost(field, l[i].0), l[i].1), Node(id, l[j].0, GetCost(field, l[j].0), l[j].1), d)
  }

  /** One pair of the internal pass, with the distance `get_distance_between_cells` gave, if any. */
  lemma InternalStep(before: map<EdgeId, Edge>, now: map<EdgeId, Edge>, id: SectorID, field: CostField,
                     l: seq<(FieldCell, Ordinal)>, i: nat, j: nat, d: Option<int>)
    requires i < |l| && j < |l| && InternalProgress(before, now, id, field, l, i, j)
    requires d.Some? <==> i != j && (l[i].0 == l[j].0 || Connected(field.costs, l[i].0, l[j].0))
    requires d.Some? ==> 0 <= d.value < 255 && (l[i].0 == l[j].0 ==> d.value == 1) && d == DistanceBetween(field, l[i].0, l[j].0)
    ensures InternalProgress(before, if d.Some? then WithEdge(now, PairEdge(id, field, l, i, j, d.value)) else now, id, field, l, i, j + 1)
  {
    var after := if d.Some? then WithEdge(now, PairEdge(id, field, l, i, j, d.value)) else now;
    forall k ensures k in after <==> k in before || PairBefore(id, field, l, k, i, j + 1) {
      if PairBefore(id, field, l, k, i, j + 1) && !PairBefore(id, field, l, k, i, j) {
        var a, b :| InternalPair(id, field, l, a, b, k) && (a < i || (a == i && b < j + 1));
        assert a == i && b == j;
      }
      if d.Some? && k == PairEdge(id, field, l, i, j, d.value).Id() {
        assert InternalPair(id, field, l, i, j, k);
      }
    }
  }

  /** The internal pass moves on from one row of pairs to the next. */
  lemma InternalNextRow(before: map<EdgeId, Edge>, now: map<EdgeId, Edge>, id: SectorID, field: CostField,
                        l: seq<(FieldCell, Ordinal)>, i: nat)
    requires InternalProgress(before, now, id, field, l, i, |l|)
    ensures InternalProgress(before, now, id, field, l, i + 1, 0)
  {
    forall k ensures PairBefore(id, field, l, k, i, |l|) <==> PairBefore(id, field, l, k, i + 1, 0) {
      if PairBefore(id, field, l, k, i + 1, 0) {
        var a, b :| InternalPair(id, field, l, a, b, k) && (a < i + 1 || (a == i + 1 && b < 0));
        assert a < i || (a == i && b < |l|);
      }
    }
  }

  /** The external pass has covered the neighbours before `t`, then the first `c` portals towards neighbour `t`. */
  ghost predicate ExternalProgress(before: map<EdgeId, Edge>, now: map<EdgeId, Edge>, portals: map<SectorID, Portals>,
                                   scaled: map<SectorID, CostField>, id: SectorID, p: Portals,
                                   neighbours: seq<(Ordinal, SectorID)>, t: int, c: int) {
    (forall k :: k in now <==> (k in before || ExternalBefore(portals, id, p, neighbours, t, c, k))) &&
    (forall k :: k in now ==> now[k] == if k in before then before[k] else ExternalEdgeOf(scaled, k))
  }

  /** `k` is an external edge the pass adds before portal `c` towards neighbour `t`. */
  ghost predicate ExternalBefore(portals: map<SectorID, Portals>, id: SectorID, p: Portals,
                                 neighbours: seq<(Ordinal, SectorID)>, t: int, c: int, k: EdgeId) {
    exists u, i :: 0 <= u < |neighbours| && ExternalAt(portals, id, p, neighbours[u], i, k) && (u < t || (u == t && i < c))
  }

  /** One portal of the external pass. */
  lemma ExternalStep(before: map<EdgeId, Edge>, now: map<EdgeId, Edge>, portals: map<SectorID, Portals>,
                     scaled: map<SectorID, CostField>, id: SectorID, p: Portals,
                     neighbours: seq<(Ordinal, SectorID)>, t: nat, c: nat, k: EdgeId)
    requires t < |neighbours| && ExternalAt(portals, id, p, neighbours[t], c, k)
    requires ExternalProgress(before, now, portals, scaled, id, p, neighbours, t, c)
    ensures ExternalProgress(before, WithEdge(now, ExternalEdgeOf(scaled, k)), portals, scaled, id, p, neighbours, t, c + 1)
  {
    var e := ExternalEdgeOf(scaled, k);
    var now' := WithEdge(now, e);
    forall k' ensures k' in now' <==> (k' in before || ExternalBefore(portals, id, p, neighbours, t, c + 1, k')) {
      ExternalBeforeStep(portals, id, p, neighbours, t, c, k, k');
    }
    forall k' | k' in now' ensures now'[k'] == if k' in before then before[k'] else ExternalEdgeOf(scaled, k') {
      if k' !in now {
        assert k' == e.Id();
      }
    }
  }

  /** The edges before portal `c + 1` are those before portal `c` and the edge of portal `c`. */
  lemma ExternalBeforeStep(portals: map<SectorID, Portals>, id: SectorID, p: Portals,
                           neighbours: seq<(Ordinal, SectorID)>, t: nat, c: nat, k: EdgeId, k': EdgeId)
    requires t < |neighbours| && ExternalAt(portals, id, p, neighbours[t], c, k)
    ensures ExternalBefore(portals, id, p, neighbours, t, c + 1, k') <==>
            k' == k || ExternalBefore(portals, id, p, neighbours, t, c, k')
  {
    if ExternalBefore(portals, id, p, neighbours, t, c + 1, k') {
      var u, i :| 0 <= u < |neighbours| && ExternalAt(portals, id, p, neighbours[u], i, k') && (u < t || (u == t && i < c + 1));
      if u != t || i != c {
        assert ExternalBefore(portals, id, p, neighbours, t, c, k');
      }
    }
    if k' == k {
      assert ExternalAt(portals, id, p, neighbours[t], c, k');
    } else if ExternalBefore(portals, id, p, neighbours, t, c, k') {
      var u, i :| 0 <= u < |neighbours| && ExternalAt(portals, id, p, neighbours[u], i, k') && (u < t || (u == t && i < c));
      assert u < t || (u == t && i < c + 1);
    }
  }

  /** The external pass moves on from one neighbour to the next. */
  lemma ExternalNextNeighbour(before: map<EdgeId, Edge>, now: map<EdgeId, Edge>, portals: map<SectorID, Portals>,
                              scaled: map<SectorID, CostField>, id: SectorID, p: Portals,
                              neighbours: seq<(Ordinal, SectorID)>, t: nat)
    requires t < |neighbours| && ExternalProgress(before, now, portals, scaled, id, p, neighbours, t, |SideCells(p, neighbours[t].0)|)
    ensures ExternalProgress(before, now, portals, scaled, id, p, neighbours, t + 1, 0)
  {
    forall k ensures ExternalBefore(portals, id, p, neighbours, t + 1, 0, k) <==>
                     ExternalBefore(portals, id, p, neighbours, t, |SideCells(p, neighbours[t].0)|, k) {
      if ExternalBefore(portals, id, p, neighbours, t + 1, 0, k) {
        var u, i :| 0 <= u < |neighbours| && ExternalAt(portals, id, p, neighbours[u], i, k) && (u < t + 1 || (u == t + 1 && i < 0));
        assert u < t || (u == t && i < |SideCells(p, neighbours[t].0)|);
      }
    }
  }

  /** `get_ordinal_and_ids_of_neighbouring_sectors` of the map dimensions. */
  function Neighbours(dims: MapDimensions, id: SectorID): seq<(Ordinal, SectorID)>
    requires dims.sectorResolution > 0 && dims.Columns() > 0 && dims.Rows() > 0
  {
    OrdinalAndIdsOfNeighbouringSectors(dims, id)
  }

  /** `k` is an external edge from some sector of `portals` into one of its neighbours on the map. */
  ghost predicate IsExternalEdge(portals: map<SectorID, Portals>, dims: MapDimensions, k: EdgeId)
    requires dims.sectorResolution > 0 && dims.Columns() > 0 && dims.Rows() > 0
  {
    k.from.sector in portals && IsExternalKey(portals, k.from.sector, portals[k.from.sector], Neighbours(dims, k.from.sector), k)
  }

  /**
   * What `PortalGraph::new` demands of its inputs, where the source would
   * otherwise `unwrap` a missing entry or index past the end of a list:
   * every sector with portals has a scaled cost field, and the external pass
   * of every sector finds what it reads.
   */
  ghost predicate Buildable(portals: map<SectorID, Portals>, scaled: map<SectorID, CostField>, dims: MapDimensions) {
    dims.sectorResolution > 0 && dims.Columns() > 0 && dims.Rows() > 0 &&
    (forall s :: s in portals ==> s in scaled) &&
    (forall s :: s in portals ==> ExternalReady(portals, scaled, s, portals[s], Neighbours(dims, s)))
  }

  /** The ids of a list of nodes. */
  function Ids(ns: seq<Node>): set<NodeId> {
    set i | 0 <= i < |ns| :: ns[i].Id()
  }

  /** The ids of two lists joined are the ids of each. */
  lemma IdsConcat(a: seq<Node>, b: seq<Node>)
    ensures Ids(a + b) == Ids(a) + Ids(b)
  {
    forall k | k in Ids(a + b) ensures k in Ids(a) + Ids(b) {
      var i :| 0 <= i < |a + b| && (a + b)[i].Id() == k;
      if i >= |a| { assert b[i - |a|].Id() == k; }
    }
    forall k | k in Ids(a) + Ids(b) ensures k in Ids(a + b) {
      if k in Ids(a) {
        var i :| 0 <= i < |a| && a[i].Id() == k;
        assert (a + b)[i].Id() == k;
      } else {
        var i :| 0 <= i < |b| && b[i].Id() == k;
        assert (a + b)[|a| + i].Id() == k;
      }
    }
  }

  /** The ids of a one-node list. */
  lemma IdsSingle(n: Node)
    ensures Ids([n]) == {n.Id()}
  {
    assert [n][0] == n;
  }

  /** `now` is `before` with every edge touching one of `ids` dropped. */
  ghost predicate DetachedFrom(before: map<EdgeId, Edge>, now: map<EdgeId, Edge>, ids: set<NodeId>) {
    (forall k :: k in now <==> k in before && k.from !in ids && k.to !in ids) &&
    (forall k :: k in now ==> now[k] == before[k])
  }

  /** Dropping the edges of one more node. */
  lemma DetachedStep(before: map<EdgeId, Edge>, now: map<EdgeId, Edge>, ids: set<NodeId>, id: NodeId)
    requires DetachedFrom(before, now, ids)
    ensures DetachedFrom(before, Detached(now, id), ids + {id})
  {
  }

  /** The nodes `update_graph` discards: every node of the changed sector, and each neighbour's nodes on the side facing it. */
  ghost predicate Stale(changed: SectorID, neighbours: seq<(Ordinal, SectorID)>, k: NodeId) {
    k.sector == changed || exists t :: 0 <= t < |neighbours| && k.sector == neighbours[t].1 && k.side == Inverse(neighbours[t].0)
  }

  /** `k` is the node of a portal of one of the listed neighbours. */
  ghost predicate NeighbourNode(portals: map<SectorID, Portals>, neighbours: seq<(Ordinal, SectorID)>, k: NodeId) {
    exists t :: 0 <= t < |neighbours| && neighbours[t].1 in portals && IsSectorNode(neighbours[t].1, portals[neighbours[t].1], k)
  }

  /** `k` is a portal node of one of the first `t` listed neighbours. */
  ghost predicate NeighbourNodeBefore(portals: map<SectorID, Portals>, neighbours: seq<(Ordinal, SectorID)>, t: int, k: NodeId) {
    exists u :: 0 <= u < t && u < |neighbours| && neighbours[u].1 in portals && IsSectorNode(neighbours[u].1, portals[neighbours[u].1], k)
  }

  /** The nodes of the first `t + 1` neighbours are those of the first `t` and those of neighbour `t`. */
  lemma NeighbourNodeNext(portals: map<SectorID, Portals>, neighbours: seq<(Ordinal, SectorID)>, t: nat, k: NodeId)
    requires t < |neighbours| && neighbours[t].1 in portals
    ensures NeighbourNodeBefore(portals, neighbours, t + 1, k) <==>
      NeighbourNodeBefore(portals, neighbours, t, k) || IsSectorNode(neighbours[t].1, portals[neighbours[t].1], k)
  {
    if NeighbourNodeBefore(portals, neighbours, t + 1, k) {
      var u :| 0 <= u < t + 1 && u < |neighbours| && neighbours[u].1 in portals && IsSectorNode(neighbours[u].1, portals[neighbours[u].1], k);
      if u < t {
        assert NeighbourNodeBefore(portals, neighbours, t, k);
      }
    }
    if NeighbourNodeBefore(portals, neighbours, t, k) {
      var u :| 0 <= u < t && u < |neighbours| && neighbours[u].1 in portals && IsSectorNode(neighbours[u].1, portals[neighbours[u].1], k);
      assert u < t + 1;
    }
    if IsSectorNode(neighbours[t].1, portals[neighbours[t].1], k) {
      assert 0 <= t < t + 1 && t < |neighbours|;
    }
  }

  /** All listed neighbours have been covered: the nodes of the first `|neighbours|` are those of any neighbour. */
  lemma NeighbourNodeAll(portals: map<SectorID, Portals>, neighbours: seq<(Ordinal, SectorID)>, k: NodeId)
    ensures NeighbourNodeBefore(portals, neighbours, |neighbours|, k) <==> NeighbourNode(portals, neighbours, k)
  {
    if NeighbourNode(portals, neighbours, k) {
      var u :| 0 <= u < |neighbours| && neighbours[u].1 in portals && IsSectorNode(neighbours[u].1, portals[neighbours[u].1], k);
      assert NeighbourNodeBefore(portals, neighbours, |neighbours|, k);
    }
  }

  /** `k` is an internal edge of one of the listed neighbours. */
  ghost predicate NeighbourInternal(portals: map<SectorID, Portals>, scaled: map<SectorID, CostField>,
                                    neighbours: seq<(Ordinal, SectorID)>, k: EdgeId) {
    exists t :: 0 <= t < |neighbours| && neighbours[t].1 in portals && neighbours[t].1 in scaled &&
      IsInternalKey(neighbours[t].1, scaled[neighbours[t].1], portals[neighbours[t].1], k)
  }

  /** `k` is an internal edge of one of the first `t` listed neighbours. */
  ghost predicate NeighbourInternalBefore(portals: map<SectorID, Portals>, scaled: map<SectorID, CostField>,
                                          neighbours: seq<(Ordinal, SectorID)>, t: int, k: EdgeId) {
    exists u :: 0 <= u < t && u < |neighbours| && neighbours[u].1 in portals && neighbours[u].1 in scaled &&
      IsInternalKey(neighbours[u].1, scaled[neighbours[u].1], portals[neighbours[u].1], k)
  }

  /**
   * The internal-edge part of `update_graph` has added the internal edges of
   * the changed sector and of the first `t` neighbours to `before`, keeping
   * the edges already there.
   */
  ghost predicate InternalRebuilt(before: map<EdgeId, Edge>, now: map<EdgeId, Edge>, portals: map<SectorID, Portals>,
                                  scaled: map<SectorID, CostField>, changed: SectorID, neighbours: seq<(Ordinal, SectorID)>, t: int)
    requires changed in portals && changed in scaled
  {
    RebuiltKeys(before, now, portals, scaled, changed, neighbours, t) && Keeps(before, now) && FitsScaled(before, now, scaled)
  }

  /** The keys after the changed sector and the first `t` neighbours have had their internal edges added. */
  ghost predicate RebuiltKeys(before: map<EdgeId, Edge>, now: map<EdgeId, Edge>, portals: map<SectorID, Portals>,
                              scaled: map<SectorID, CostField>, changed: SectorID, neighbours: seq<(Ordinal, SectorID)>, t: int)
    requires changed in portals && changed in scaled
  {
    forall k :: k in now <==> (k in before || IsInternalKey(changed, scaled[changed], portals[changed], k) ||
      NeighbourInternalBefore(portals, scaled, neighbours, t, k))
  }

  /** Every edge of `before` is still there, unchanged. */
  ghost predicate Keeps(before: map<EdgeId, Edge>, now: map<EdgeId, Edge>) {
    forall k :: k in before ==> k in now && now[k] == before[k]
  }

  /** Every edge added since `before` fits the scaled costs of its sector. */
  ghost predicate FitsScaled(before: map<EdgeId, Edge>, now: map<EdgeId, Edge>, scaled: map<SectorID, CostField>) {
    forall k :: k in now && k !in before ==> k.from.sector in scaled && InternalEdgeFits(scaled[k.from.sector], now[k])
  }

  /** Adding the internal edges of neighbour `t` moves the internal-edge rebuild on by one neighbour. */
  lemma InternalRebuildStep(before: map<EdgeId, Edge>, mid: map<EdgeId, Edge>, now: map<EdgeId, Edge>,
                            portals: map<SectorID, Portals>, scaled: map<SectorID, CostField>, changed: SectorID,
                            neighbours: seq<(Ordinal, SectorID)>, t: nat)
    requires changed in portals && changed in scaled
    requires t < |neighbours| && neighbours[t].1 in portals && neighbours[t].1 in scaled
    requires InternalRebuilt(before, mid, portals, scaled, changed, neighbours, t)
    requires var n := neighbours[t].1;
      (forall k :: k in now <==> k in mid || IsInternalKey(n, scaled[n], portals[n], k)) &&
      (forall k :: k in mid ==> now[k] == mid[k]) &&
      (forall k :: k in now && k !in mid ==> InternalEdgeFits(scaled[n], now[k]))
    ensures InternalRebuilt(before, now, portals, scaled, changed, neighbours, t + 1)
  {
    var n := neighbours[t].1;
    RebuiltKeysStep(before, mid, now, portals, scaled, changed, neighbours, t);
    assert Keeps(mid, now);
    KeepsTransitive(before, mid, now);
    FitsStep(before, mid, now, portals, scaled, n);
  }

  lemma RebuiltKeysStep(before: map<EdgeId, Edge>, mid: map<EdgeId, Edge>, now: map<EdgeId, Edge>,
                        portals: map<SectorID, Portals>, scaled: map<SectorID, CostField>, changed: SectorID,
                        neighbours: seq<(Ordinal, SectorID)>, t: nat)
    requires changed in portals && changed in scaled
    requires t < |neighbours| && neighbours[t].1 in portals && neighbours[t].1 in scaled
    requires RebuiltKeys(before, mid, portals, scaled, changed, neighbours, t)
    requires var n := neighbours[t].1; forall k :: k in now <==> k in mid || IsInternalKey(n, scaled[n], portals[n], k)
    ensures RebuiltKeys(before, now, portals, scaled, changed, neighbours, t + 1)
  {
    forall k ensures k in now <==> (k in before || IsInternalKey(changed, scaled[changed], portals[changed], k) ||
                                    NeighbourInternalBefore(portals, scaled, neighbours, t + 1, k)) {
      NeighbourInternalNext(portals, scaled, neighbours, t, k);
    }
  }

  lemma KeepsTransitive(a: map<EdgeId, Edge>, b: map<EdgeId, Edge>, c: map<EdgeId, Edge>)
    requires Keeps(a, b) && Keeps(b, c)
    ensures Keeps(a, c)
  {
  }

  lemma FitsStep(before: map<EdgeId, Edge>, mid: map<EdgeId, Edge>, now: map<EdgeId, Edge>,
                 portals: map<SectorID, Portals>, scaled: map<SectorID, CostField>, n: SectorID)
    requires n in portals && n in scaled
    requires FitsScaled(before, mid, scaled) && Keeps(mid, now)
    requires forall k :: k in now && k !in mid ==> IsInternalKey(n, scaled[n], portals[n], k) && InternalEdgeFits(scaled[n], now[k])
    ensures FitsScaled(before, now, scaled)
  {
    forall k | k in now && k !in mid ensures k.from.sector == n {
      var a, b :| InternalPair(n, scaled[n], PortalList(portals[n]), a, b, k);
    }
  }

  /** The internal edges of the first `t + 1` neighbours are those of the first `t` and those of neighbour `t`. */
  lemma NeighbourInternalNext(portals: map<SectorID, Portals>, scaled: map<SectorID, CostField>,
                              neighbours: seq<(Ordinal, SectorID)>, t: nat, k: EdgeId)
    requires t < |neighbours| && neighbours[t].1 in portals && neighbours[t].1 in scaled
    ensures var n := neighbours[t].1;
      NeighbourInternalBefore(portals, scaled, neighbours, t + 1, k) <==>
      NeighbourInternalBefore(portals, scaled, neighbours, t, k) || IsInternalKey(n, scaled[n], portals[n], k)
  {
    var n := neighbours[t].1;
    if NeighbourInternalBefore(portals, scaled, neighbours, t + 1, k) {
      var u :| 0 <= u < t + 1 && u < |neighbours| && neighbours[u].1 in portals && neighbours[u].1 in scaled &&
        IsInternalKey(neighbours[u].1, scaled[neighbours[u].1], portals[neighbours[u].1], k);
      if u < t {
        assert NeighbourInternalBefore(portals, scaled, neighbours, t, k);
      }
    }
    if NeighbourInternalBefore(portals, scaled, neighbours, t, k) {
      var u :| 0 <= u < t && u < |neighbours| && neighbours[u].1 in portals && neighbours[u].1 in scaled &&
        IsInternalKey(neighbours[u].1, scaled[neighbours[u].1], portals[neighbours[u].1], k);
      assert u < t + 1;
    }
    if IsInternalKey(n, scaled[n], portals[n], k) {
      assert 0 <= t < t + 1 && t < |neighbours|;
    }
  }

  /** `k` is an external edge from one of the first `t` listed neighbours back into the changed sector. */
  ghost predicate BackEdge(portals: map<SectorID, Portals>, changed: SectorID, neighbours: seq<(Ordinal, SectorID)>, t: int, k: EdgeId) {
    exists u, i :: 0 <= u < t && u < |neighbours| && neighbours[u].1 in portals &&
      ExternalAt(portals, neighbours[u].1, portals[neighbours[u].1], (Inverse(neighbours[u].0), changed), i, k)
  }

  /** The external pass over a single neighbour. */
  lemma SingleExternal(portals: map<SectorID, Portals>, id: SectorID, p: Portals, nb: (Ordinal, SectorID), k: EdgeId)
    ensures IsExternalKey(portals, id, p, [nb], k) <==> exists i :: ExternalAt(portals, id, p, nb, i, k)
  {
    if exists i :: ExternalAt(portals, id, p, nb, i, k) {
      var i :| ExternalAt(portals, id, p, nb, i, k);
      assert [nb][0] == nb;
    }
  }

  /**
   * What `update_graph` demands, where the source would `unwrap` a missing
   * entry or index past a list: the changed sector and its neighbours have
   * portals and scaled costs, and the edges across each shared boundary
   * find as many portals on the far side as on the near one.
   */
  ghost predicate UpdateReady(portals: map<SectorID, Portals>, scaled: map<SectorID, CostField>, dims: MapDimensions, changed: SectorID) {
    dims.sectorResolution > 0 && dims.Columns() > 0 && dims.Rows() > 0 &&
    changed in portals && changed in scaled &&
    ExternalReady(portals, scaled, changed, portals[changed], Neighbours(dims, changed)) &&
    forall t :: 0 <= t < |Neighbours(dims, changed)| ==>
      var n := Neighbours(dims, changed)[t];
      n.1 in portals && n.1 in scaled && ExternalReady(portals, scaled, n.1, portals[n.1], [(Inverse(n.0), changed)])
  }

  /** The external part of `update_graph` has added the changed sector's edges and the back edges of the first `t` neighbours. */
  ghost predicate BackProgress(before: map<EdgeId, Edge>, now: map<EdgeId, Edge>, portals: map<SectorID, Portals>,
                               scaled: map<SectorID, CostField>, changed: SectorID, neighbours: seq<(Ordinal, SectorID)>, t: int)
    requires changed in portals
  {
    (forall k :: k in now <==> (k in before || IsExternalKey(portals, changed, portals[changed], neighbours, k) ||
      BackEdge(portals, changed, neighbours, t, k))) &&
    (forall k :: k in now ==> now[k] == if k in before then before[k] else ExternalEdgeOf(scaled, k))
  }

  /** The back edges of one more neighbour. */
  lemma BackStep(before: map<EdgeId, Edge>, mid: map<EdgeId, Edge>, now: map<EdgeId, Edge>, portals: map<SectorID, Portals>,
                 scaled: map<SectorID, CostField>, changed: SectorID, neighbours: seq<(Ordinal, SectorID)>, t: nat)
    requires changed in portals && t < |neighbours| && neighbours[t].1 in portals
    requires BackProgress(before, mid, portals, scaled, changed, neighbours, t)
    requires forall k :: k in now <==> (k in mid ||
      IsExternalKey(portals, neighbours[t].1, portals[neighbours[t].1], [(Inverse(neighbours[t].0), changed)], k))
    requires forall k :: k in now ==> now[k] == if k in mid then mid[k] else ExternalEdgeOf(scaled, k)
    ensures BackProgress(before, now, portals, scaled, changed, neighbours, t + 1)
  {
    forall k ensures BackEdge(portals, changed, neighbours, t + 1, k) <==> (BackEdge(portals, changed, neighbours, t, k) ||
      IsExternalKey(portals, neighbours[t].1, portals[neighbours[t].1], [(Inverse(neighbours[t].0), changed)], k))
    {
      SingleExternal(portals, neighbours[t].1, portals[neighbours[t].1], (Inverse(neighbours[t].0), changed), k);
    }
  }

  /** An edge `update_graph` drops: one end is a node it discards. */
  ghost predicate Touches(nodes: map<NodeId, Node>, changed: SectorID, neighbours: seq<(Ordinal, SectorID)>, k: EdgeId) {
    (k.from in nodes && Stale(changed, neighbours, k.from)) || (k.to in nodes && Stale(changed, neighbours, k.to))
  }

  /** The node set after `update_graph`: stale nodes dropped, the portals of the changed sector and its neighbours created again. */
  ghost predicate UpdatedNodes(before: map<NodeId, Node>, now: map<NodeId, Node>, portals: map<SectorID, Portals>,
                               scaled: map<SectorID, CostField>, changed: SectorID, neighbours: seq<(Ordinal, SectorID)>)
    requires changed in portals
  {
    (forall k :: k in now <==> ((k in before && !Stale(changed, neighbours, k)) ||
      IsSectorNode(changed, portals[changed], k) || NeighbourNode(portals, neighbours, k))) &&
    (forall k :: k in now ==> now[k] == if k in before && !Stale(changed, neighbours, k) then before[k] else NodeAt(scaled, k))
  }

  /** The internal edges after `update_graph`: those touching a stale node dropped, those of the changed sector and its neighbours added. */
  ghost predicate UpdatedInternal(nodes: map<NodeId, Node>, before: map<EdgeId, Edge>, now: map<EdgeId, Edge>,
                                  portals: map<SectorID, Portals>, scaled: map<SectorID, CostField>,
                                  changed: SectorID, neighbours: seq<(Ordinal, SectorID)>)
    requires changed in portals && changed in scaled
  {
    (forall k :: k in now <==> ((k in before && !Touches(nodes, changed, neighbours, k)) ||
      IsInternalKey(changed, scaled[changed], portals[changed], k) || NeighbourInternal(portals, scaled, neighbours, k))) &&
    (forall k :: k in now ==>
      if k in before && !Touches(nodes, changed, neighbours, k) then now[k] == before[k]
      else k.from.sector in scaled && InternalEdgeFits(scaled[k.from.sector], now[k]))
  }

  /** The external edges after `update_graph`: those touching a stale node dropped, those across the changed sector's boundaries added. */
  ghost predicate UpdatedExternal(nodes: map<NodeId, Node>, before: map<EdgeId, Edge>, now: map<EdgeId, Edge>,
                                  portals: map<SectorID, Portals>, scaled: map<SectorID, CostField>,
                                  changed: SectorID, neighbours: seq<(Ordinal, SectorID)>)
    requires changed in portals
  {
    (forall k :: k in now <==> ((k in before && !Touches(nodes, changed, neighbours, k)) ||
      IsExternalKey(portals, changed, portals[changed], neighbours, k) || BackEdge(portals, changed, neighbours, |neighbours|, k))) &&
    (forall k :: k in now ==> now[k] == if k in before && !Touches(nodes, changed, neighbours, k) then before[k] else ExternalEdgeOf(scaled, k))
  }

  /** Removal of the stale nodes followed by `RebuildNodes` gives the updated node set. */
  lemma NodesComposed(before: map<NodeId, Node>, mid: map<NodeId, Node>, now: map<NodeId, Node>, stale: set<NodeId>,
                      portals: map<SectorID, Portals>, scaled: map<SectorID, CostField>, changed: SectorID, neighbours: seq<(Ordinal, SectorID)>)
    requires changed in portals
    requires forall k :: k in stale <==> k in before && Stale(changed, neighbours, k)
    requires mid == before - stale
    requires forall k :: k in now <==> (k in mid || IsSectorNode(changed, portals[changed], k) || NeighbourNode(portals, neighbours, k))
    requires forall k :: k in now ==> now[k] == if k in mid then mid[k] else NodeAt(scaled, k)
    ensures UpdatedNodes(before, now, portals, scaled, changed, neighbours)
  {
  }

  /** Removal of the edges touching stale nodes followed by `RebuildInternalEdges` gives the updated internal edges. */
  lemma InternalComposed(nodes: map<NodeId, Node>, before: map<EdgeId, Edge>, mid: map<EdgeId, Edge>, now: map<EdgeId, Edge>,
                         stale: set<NodeId>, portals: map<SectorID, Portals>, scaled: map<SectorID, CostField>,
                         changed: SectorID, neighbours: seq<(Ordinal, SectorID)>)
    requires changed in portals && changed in scaled
    requires forall k :: k in stale <==> k in nodes && Stale(changed, neighbours, k)
    requires DetachedFrom(before, mid, stale)
    requires forall k :: k in now <==>
      (k in mid || IsInternalKey(changed, scaled[changed], portals[changed], k) || NeighbourInternal(portals, scaled, neighbours, k))
    requires forall k :: k in mid ==> now[k] == mid[k]
    requires forall k :: k in now && k !in mid ==> k.from.sector in scaled && InternalEdgeFits(scaled[k.from.sector], now[k])
    ensures UpdatedInternal(nodes, before, now, portals, scaled, changed, neighbours)
  {
  }

  /** Removal of the edges touching stale nodes followed by `RebuildExternalEdges` gives the updated external edges. */
  lemma ExternalComposed(nodes: map<NodeId, Node>, before: map<EdgeId, Edge>, mid: map<EdgeId, Edge>, now: map<EdgeId, Edge>,
                         stale: set<NodeId>, portals: map<SectorID, Portals>, scaled: map<SectorID, CostField>,
                         changed: SectorID, neighbours: seq<(Ordinal, SectorID)>)
    requires changed in portals
    requires forall k :: k in stale <==> k in nodes && Stale(changed, neighbours, k)
    requires DetachedFrom(before, mid, stale)
    requires BackProgress(mid, now, portals, scaled, changed, neighbours, |neighbours|)
    ensures UpdatedExternal(nodes, before, now, portals, scaled, changed, neighbours)
  {
  }

  /** The keys of `es` that start or end at `id`, in some order. */
  method TouchingEdges(es: map<EdgeId, Edge>, id: NodeId) returns (ks: seq<EdgeId>)
    ensures forall k :: k in ks <==> k in es && (k.from == id || k.to == id)
  {
    ks := [];
    var rest := es.Keys;
    while rest != {}
      invariant rest <= es.Keys
      invariant forall k :: k in ks <==> k in es && k !in rest && (k.from == id || k.to == id)
      decreases rest
    {
      var k :| k in rest;
      if k.from == id || k.to == id {
        ks := ks + [k];
      }
      rest := rest - {k};
    }
  }

  /** The nodes of `ns` in one sector, in some order. */
  method NodesInSector(ns: map<NodeId, Node>, sector: SectorID) returns (found: seq<Node>)
    requires NodeSet(ns)
    ensures forall k :: k in Ids(found) <==> k in ns && k.sector == sector
  {
    found := [];
    var rest := ns.Keys;
    while rest != {}
      invariant rest <= ns.Keys
      invariant forall k :: k in Ids(found) <==> k in ns && k !in rest && k.sector == sector
      decreases rest
    {
      var k :| k in rest;
      if ns[k].IsInSector(sector) {
        IdsConcat(found, [ns[k]]);
        assert ns[k].Id() == k;
        IdsSingle(ns[k]);
        found := found + [ns[k]];
      }
      rest := rest - {k};
    }
  }

  /** The nodes of `ns` on one side of one sector, in some order. */
  method NodesOnSide(ns: map<NodeId, Node>, sector: SectorID, side: Ordinal) returns (found: seq<Node>)
    requires NodeSet(ns)
    ensures forall k :: k in Ids(found) <==> k in ns && k.sector == sector && k.side == side
  {
    found := [];
    var rest := ns.Keys;
    while rest != {}
      invariant rest <= ns.Keys
      invariant forall k :: k in Ids(found) <==> k in ns && k !in rest && k.sector == sector && k.side == side
      decreases rest
    {
      var k :| k in rest;
      if ns[k].IsInSector(sector) && ns[k].side == side {
        IdsConcat(found, [ns[k]]);
        assert ns[k].Id() == k;
        IdsSingle(ns[k]);
        found := found + [ns[k]];
      }
      rest := rest - {k};
    }
  }

  /**
   * The first part of `update_graph`, over a copy of the node set: the nodes
   * of the changed sector, then the nodes of each neighbour on the side
   * facing it.
   */
  method StaleNodes(ns: map<NodeId, Node>, changed: SectorID, neighbours: seq<(Ordinal, SectorID)>) returns (stale: seq<Node>)
    requires NodeSet(ns)
    ensures forall k :: k in Ids(stale) <==> k in ns && Stale(changed, neighbours, k)
  {
    stale := NodesInSector(ns, changed);
    for t := 0 to |neighbours|
      invariant forall k :: k in Ids(stale) <==> (k in ns &&
        (k.sector == changed || exists u :: 0 <= u < t && k.sector == neighbours[u].1 && k.side == Inverse(neighbours[u].0)))
    {
      var facing := NodesOnSide(ns, neighbours[t].1, Inverse(neighbours[t].0));
      IdsConcat(stale, facing);
      stale := stale + facing;
    }
  }

  /** `PortalGraph`: the node set and the two edge sets, changed in place. */
  class PortalGraph {
    var nodes: map<NodeId, Node>
    var edgesInternal: map<EdgeId, Edge>
    var edgesExternal: map<EdgeId, Edge>

    /** Every stored node and edge sits under the fields its equality compares. */
    ghost predicate Valid()
      reads this
    {
      NodeSet(nodes) && EdgeSet(edgesInternal) && EdgeSet(edgesExternal)
    }

    /** `PortalGraph::default`: no nodes and no edges. */
    constructor ()
      ensures Valid() && nodes == map[] && edgesInternal == map[] && edgesExternal == map[]
    {
      nodes := map[];
      edgesInternal := map[];
      edgesExternal := map[];
    }

    /** `add_node`. */
    method AddNode(node: Node)
      requires Valid()
      modifies this
      ensures Valid() && nodes == WithNode(old(nodes), node)
      ensures edgesInternal == old(edgesInternal) && edgesExternal == old(edgesExternal)
    {
      nodes := WithNode(nodes, node);
    }

    /** `add_edge_internal`. */
    method AddEdgeInternal(edge: Edge)
      requires Valid()
      modifies this
      ensures Valid() && edgesInternal == WithEdge(old(edgesInternal), edge)
      ensures nodes == old(nodes) && edgesExternal == old(edgesExternal)
    {
      edgesInternal := WithEdge(edgesInternal, edge);
    }

    /** `add_edge_external`. */
    method AddEdgeExternal(edge: Edge)
      requires Valid()
      modifies this
      ensures Valid() && edgesExternal == WithEdge(old(edgesExternal), edge)
      ensures nodes == old(nodes) && edgesInternal == old(edgesInternal)
    {
      edgesExternal := WithEdge(edgesExternal, edge);
    }

    /** `remove_edge_internal`: drops the edge equal to `edge`, if any. */
    method RemoveEdgeInternal(edge: Edge)
      requires Valid()
      modifies this
      ensures Valid() && edgesInternal == old(edgesInternal) - {edge.Id()}
      ensures nodes == old(nodes) && edgesExternal == old(edgesExternal)
    {
      edgesInternal := edgesInternal - {edge.Id()};
    }

    /** `remove_edge_external`: drops the edge equal to `edge`, if any. */
    method RemoveEdgeExternal(edge: Edge)
      requires Valid()
      modifies this
      ensures Valid() && edgesExternal == old(edgesExternal) - {edge.Id()}
      ensures nodes == old(nodes) && edgesInternal == old(edgesInternal)
    {
      edgesExternal := edgesExternal - {edge.Id()};
    }

    /** The removal loop of `remove_node` over the collected internal edges. */
    method RemoveInternalEdges(ks: seq<EdgeId>)
      requires Valid() && forall i :: 0 <= i < |ks| ==> ks[i] in edgesInternal
      modifies this
      ensures Valid() && nodes == old(nodes) && edgesExternal == old(edgesExternal)
      ensures edgesInternal == map k | k in old(edgesInternal) && k !in ks :: old(edgesInternal)[k]
    {
      var before := edgesInternal;
      for i := 0 to |ks|
        invariant Valid() && nodes == old(nodes) && edgesExternal == old(edgesExternal)
        invariant edgesInternal == map k | k in before && k !in ks[..i] :: before[k]
      {
        RemoveEdgeInternal(before[ks[i]]);
        assert ks[..i + 1] == ks[..i] + [ks[i]];
      }
      assert ks[..|ks|] == ks;
    }

    /** The removal loop of `remove_node` over the collected external edges. */
    method RemoveExternalEdges(ks: seq<EdgeId>)
      requires Valid() && forall i :: 0 <= i < |ks| ==> ks[i] in edgesExternal
      modifies this
      ensures Valid() && nodes == old(nodes) && edgesInternal == old(edgesInternal)
      ensures edgesExternal == map k | k in old(edgesExternal) && k !in ks :: old(edgesExternal)[k]
    {
      var before := edgesExternal;
      for i := 0 to |ks|
        invariant Valid() && nodes == old(nodes) && edgesInternal == old(edgesInternal)
        invariant edgesExternal == map k | k in before && k !in ks[..i] :: before[k]
      {
        RemoveEdgeExternal(before[ks[i]]);
        assert ks[..i + 1] == ks[..i] + [ks[i]];
      }
      assert ks[..|ks|] == ks;
    }

    /**
     * `remove_node`: collects the edges of both sets that start or end at the
     * node, removes them, then removes the node; no edge is left touching it
     * and every other node and edge stays.
     */
    method RemoveNode(node: Node)
      requires Valid()
      modifies this
      ensures Valid() && nodes == old(nodes) - {node.Id()}
      ensures edgesInternal == Detached(old(edgesInternal), node.Id())
      ensures edgesExternal == Detached(old(edgesExternal), node.Id())
    {
      var internal := TouchingEdges(edgesInternal, node.Id());
      var external := TouchingEdges(edgesExternal, node.Id());
      RemoveInternalEdges(internal);
      RemoveExternalEdges(external);
      nodes := nodes - {node.Id()};
    }

    /**
     * `create_sector_nodes`: a node for every portal of the sector, side by
     * side in North, East, South, West order, weighted by the cost of its
     * cell. The cost field is looked up only once there is a portal.
     */
    method CreateSectorNodes(scaled: map<SectorID, CostField>, id: SectorID, p: Portals)
      requires Valid() && (id in scaled || PortalList(p) == [])
      modifies this
      ensures Valid() && edgesInternal == old(edgesInternal) && edgesExternal == old(edgesExternal)
      ensures forall k :: k in nodes <==> k in old(nodes) || IsSectorNode(id, p, k)
      ensures forall k :: k in nodes ==> nodes[k] == if k in old(nodes) then old(nodes)[k] else NodeAt(scaled, k)
    {
      for o := 0 to 4
        invariant Valid() && edgesInternal == old(edgesInternal) && edgesExternal == old(edgesExternal)
        invariant NodesProgress(old(nodes), nodes, scaled, id, p, o, 0)
      {
        var side := NODE_ORDER[o];
        var cells := SideCells(p, side);
        for c := 0 to |cells|
          invariant Valid() && edgesInternal == old(edgesInternal) && edgesExternal == old(edgesExternal)
          invariant NodesProgress(old(nodes), nodes, scaled, id, p, o, c)
        {
          assert (cells[c], side) in PortalList(p);
          var weight := GetCost(scaled[id], cells[c]);
          NodesStep(old(nodes), nodes, scaled, id, p, o, c);
          AddNode(Node(id, cells[c], weight, side));
        }
        NodesNextSide(old(nodes), nodes, scaled, id, p, o);
      }
    }

    /** `create_all_nodes`: the nodes of every sector of `portals`. */
    method CreateAllNodes(portals: map<SectorID, Portals>, scaled: map<SectorID, CostField>)
      requires Valid() && forall s :: s in portals ==> s in scaled
      modifies this
      ensures Valid() && edgesInternal == old(edgesInternal) && edgesExternal == old(edgesExternal)
      ensures forall k :: k in nodes <==> k in old(nodes) || IsPortalNode(portals, k)
      ensures forall k :: k in nodes ==> nodes[k] == if k in old(nodes) then old(nodes)[k] else NodeAt(scaled, k)
    {
      var rest := portals.Keys;
      while rest != {}
        invariant rest <= portals.Keys
        invariant Valid() && edgesInternal == old(edgesInternal) && edgesExternal == old(edgesExternal)
        invariant forall k :: k in nodes <==> k in old(nodes) || (IsPortalNode(portals, k) && k.sector !in rest)
        invariant forall k :: k in nodes ==> nodes[k] == if k in old(nodes) then old(nodes)[k] else NodeAt(scaled, k)
        decreases rest
      {
        var s :| s in rest;
        CreateSectorNodes(scaled, s, portals[s]);
        rest := rest - {s};
      }
    }

    /** One row of `create_sector_internal_edges`: the edges from entry `i` of the portal list. */
    method ConnectFrom(id: SectorID, field: CostField, cells: seq<(FieldCell, Ordinal)>, i: nat, ghost before: map<EdgeId, Edge>)
      requires i < |cells|
      requires Valid() && InternalProgress(before, edgesInternal, id, field, cells, i, 0)
      modifies this
      ensures Valid() && nodes == old(nodes) && edgesExternal == old(edgesExternal)
      ensures InternalProgress(before, edgesInternal, id, field, cells, i + 1, 0)
    {
      for j := 0 to |cells|
        invariant Valid() && nodes == old(nodes) && edgesExternal == old(edgesExternal)
        invariant InternalProgress(before, edgesInternal, id, field, cells, i, j)
      {
        ConnectPair(id, field, cells, i, j, before);
      }
      InternalNextRow(before, edgesInternal, id, field, cells, i);
    }

    /** One pair of `create_sector_internal_edges`: the edge from entry `i` to entry `j`, if the search reaches it. */
    method ConnectPair(id: SectorID, field: CostField, cells: seq<(FieldCell, Ordinal)>, i: nat, j: nat, ghost before: map<EdgeId, Edge>)
      requires i < |cells| && j < |cells|
      requires Valid() && InternalProgress(before, edgesInternal, id, field, cells, i, j)
      modifies this
      ensures Valid() && nodes == old(nodes) && edgesExternal == old(edgesExternal)
      ensures InternalProgress(before, edgesInternal, id, field, cells, i, j + 1)
    {
      if i != j {
        var distance, _ := GetDistanceBetweenCells(field, cells[i].0, cells[j].0);
        InternalStep(before, edgesInternal, id, field, cells, i, j, distance);
        if distance.Some? {
          var sourceNode := Node(id, cells[i].0, GetCost(field, cells[i].0), cells[i].1);
          var targetNode := Node(id, cells[j].0, GetCost(field, cells[j].0), cells[j].1);
          AddEdgeInternal(Edge(sourceNode, targetNode, distance.value));
        }
      } else {
        InternalStep(before, edgesInternal, id, field, cells, i, j, None);
      }
    }

    /**
     * `create_sector_internal_edges`: an edge from each entry of the portal
     * list to every other entry that `get_distance_between_cells` reaches,
     * with that distance.
     */
    method CreateSectorInternalEdges(id: SectorID, field: CostField, p: Portals)
      requires Valid()
      modifies this
      ensures Valid() && nodes == old(nodes) && edgesExternal == old(edgesExternal)
      ensures forall k :: k in edgesInternal <==> k in old(edgesInternal) || IsInternalKey(id, field, p, k)
      ensures forall k :: k in old(edgesInternal) ==> edgesInternal[k] == old(edgesInternal)[k]
      ensures forall k :: k in edgesInternal && k !in old(edgesInternal) ==> InternalEdgeFits(field, edgesInternal[k])
    {
      var cells := PortalList(p);
      for i := 0 to |cells|
        invariant Valid() && nodes == old(nodes) && edgesExternal == old(edgesExternal)
        invariant InternalProgress(old(edgesInternal), edgesInternal, id, field, cells, i, 0)
      {
        ConnectFrom(id, field, cells, i, old(edgesInternal));
      }
      forall k ensures PairBefore(id, field, cells, k, |cells|, 0) <==> IsInternalKey(id, field, p, k) {
        if IsInternalKey(id, field, p, k) {
          var a, b :| InternalPair(id, field, cells, a, b, k);
        }
      }
    }

    /** `create_all_internal_edges`: the internal edges of every sector of `portals`, over its scaled costs. */
    method CreateAllInternalEdges(portals: map<SectorID, Portals>, scaled: map<SectorID, CostField>)
      requires Valid() && forall s :: s in portals ==> s in scaled
      modifies this
      ensures Valid() && nodes == old(nodes) && edgesExternal == old(edgesExternal)
      ensures forall k :: k in edgesInternal <==> k in old(edgesInternal) || IsInternalEdge(portals, scaled, k)
      ensures forall k :: k in old(edgesInternal) ==> edgesInternal[k] == old(edgesInternal)[k]
      ensures forall k :: k in edgesInternal && k !in old(edgesInternal) ==>
        k.from.sector in scaled && InternalEdgeFits(scaled[k.from.sector], edgesInternal[k])
    {
      var rest := portals.Keys;
      while rest != {}
        invariant rest <= portals.Keys
        invariant Valid() && nodes == old(nodes) && edgesExternal == old(edgesExternal)
        invariant forall k :: k in edgesInternal <==> k in old(edgesInternal) || (IsInternalEdge(portals, scaled, k) && k.from.sector !in rest)
        invariant forall k :: k in old(edgesInternal) ==> edgesInternal[k] == old(edgesInternal)[k]
        invariant forall k :: k in edgesInternal && k !in old(edgesInternal) ==>
          k.from.sector in scaled && InternalEdgeFits(scaled[k.from.sector], edgesInternal[k])
        decreases rest
      {
        var s :| s in rest;
        ghost var before := edgesInternal;
        CreateSectorInternalEdges(s, scaled[s], portals[s]);
        forall k | k in edgesInternal && k !in before
          ensures k.from.sector == s
        {
          var a, b :| InternalPair(s, scaled[s], PortalList(portals[s]), a, b, k);
        }
        rest := rest - {s};
      }
    }

    /** The edges across one boundary in `create_sector_external_edges`: towards neighbour `t`. */
    method ConnectAcross(portals: map<SectorID, Portals>, scaled: map<SectorID, CostField>, id: SectorID, p: Portals,
                         neighbours: seq<(Ordinal, SectorID)>, t: nat, ghost before: map<EdgeId, Edge>)
      requires t < |neighbours| && ExternalReady(portals, scaled, id, p, neighbours)
      requires Valid() && ExternalProgress(before, edgesExternal, portals, scaled, id, p, neighbours, t, 0)
      modifies this
      ensures Valid() && nodes == old(nodes) && edgesInternal == old(edgesInternal)
      ensures ExternalProgress(before, edgesExternal, portals, scaled, id, p, neighbours, t + 1, 0)
    {
      var (side, neighbour) := neighbours[t];
      var sourceField, targetField := scaled[id], scaled[neighbour];
      var boundary := SideCells(p, side);
      var neighbourBoundary := SideCells(portals[neighbour], Inverse(side));
      for i := 0 to |boundary|
        invariant Valid() && nodes == old(nodes) && edgesInternal == old(edgesInternal)
        invariant ExternalProgress(before, edgesExternal, portals, scaled, id, p, neighbours, t, i)
      {
        var sourceNode := Node(id, boundary[i], GetCost(sourceField, boundary[i]), side);
        var targetNode := Node(neighbour, neighbourBoundary[i], GetCost(targetField, neighbourBoundary[i]), Inverse(side));
        var edge := Edge(sourceNode, targetNode, SECTOR_BOUNDARY_PORTAL_PORTAL_DISTANCE);
        assert ExternalAt(portals, id, p, neighbours[t], i, edge.Id());
        assert edge == ExternalEdgeOf(scaled, edge.Id());
        ExternalStep(before, edgesExternal, portals, scaled, id, p, neighbours, t, i, edge.Id());
        AddEdgeExternal(edge);
      }
      ExternalNextNeighbour(before, edgesExternal, portals, scaled, id, p, neighbours, t);
    }

    /**
     * `create_sector_external_edges`: for each listed neighbour, an edge
     * from the `i`-th portal of the sector on the side facing it to the
     * `i`-th portal of the neighbour on the inverse side, with distance 1.
     */
    method CreateSectorExternalEdges(portals: map<SectorID, Portals>, scaled: map<SectorID, CostField>, id: SectorID, p: Portals,
                                     neighbours: seq<(Ordinal, SectorID)>)
      requires Valid() && ExternalReady(portals, scaled, id, p, neighbours)
      modifies this
      ensures Valid() && nodes == old(nodes) && edgesInternal == old(edgesInternal)
      ensures forall k :: k in edgesExternal <==> k in old(edgesExternal) || IsExternalKey(portals, id, p, neighbours, k)
      ensures forall k :: k in edgesExternal ==> edgesExternal[k] == if k in old(edgesExternal) then old(edgesExternal)[k] else ExternalEdgeOf(scaled, k)
    {
      for t := 0 to |neighbours|
        invariant Valid() && nodes == old(nodes) && edgesInternal == old(edgesInternal)
        invariant ExternalProgress(old(edgesExternal), edgesExternal, portals, scaled, id, p, neighbours, t, 0)
      {
        ConnectAcross(portals, scaled, id, p, neighbours, t, old(edgesExternal));
      }
    }

    /** `create_all_external_edges`: the external edges of every sector of `portals` into its neighbours. */
    method CreateAllExternalEdges(portals: map<SectorID, Portals>, scaled: map<SectorID, CostField>, dims: MapDimensions)
      requires Valid() && Buildable(portals, scaled, dims)
      modifies this
      ensures Valid() && nodes == old(nodes) && edgesInternal == old(edgesInternal)
      ensures forall k :: k in edgesExternal <==> k in old(edgesExternal) || IsExternalEdge(portals, dims, k)
      ensures forall k :: k in edgesExternal ==> edgesExternal[k] == if k in old(edgesExternal) then old(edgesExternal)[k] else ExternalEdgeOf(scaled, k)
    {
      var rest := portals.Keys;
      while rest != {}
        invariant rest <= portals.Keys
        invariant Valid() && nodes == old(nodes) && edgesInternal == old(edgesInternal)
        invariant forall k :: k in edgesExternal <==> k in old(edgesExternal) || (IsExternalEdge(portals, dims, k) && k.from.sector !in rest)
        invariant forall k :: k in edgesExternal ==> edgesExternal[k] == if k in old(edgesExternal) then old(edgesExternal)[k] else ExternalEdgeOf(scaled, k)
        decreases rest
      {
        var s :| s in rest;
        ghost var before := edgesExternal;
        CreateSectorExternalEdges(portals, scaled, s, portals[s], Neighbours(dims, s));
        forall k | k in edgesExternal && k !in before
          ensures k.from.sector == s
        {
          var t, i :| 0 <= t < |Neighbours(dims, s)| && ExternalAt(portals, s, portals[s], Neighbours(dims, s)[t], i, k);
        }
        rest := rest - {s};
      }
    }

    /** The removal loop of `update_graph`: afterwards the listed nodes and every edge touching one of them are gone. */
    method RemoveNodes(stale: seq<Node>)
      requires Valid()
      modifies this
      ensures Valid() && nodes == old(nodes) - Ids(stale)
      ensures DetachedFrom(old(edgesInternal), edgesInternal, Ids(stale))
      ensures DetachedFrom(old(edgesExternal), edgesExternal, Ids(stale))
    {
      for i := 0 to |stale|
        invariant Valid() && nodes == old(nodes) - Ids(stale[..i])
        invariant DetachedFrom(old(edgesInternal), edgesInternal, Ids(stale[..i]))
        invariant DetachedFrom(old(edgesExternal), edgesExternal, Ids(stale[..i]))
      {
        assert stale[..i + 1] == stale[..i] + [stale[i]];
        IdsConcat(stale[..i], [stale[i]]);
        IdsSingle(stale[i]);
        DetachedStep(old(edgesInternal), edgesInternal, Ids(stale[..i]), stale[i].Id());
        DetachedStep(old(edgesExternal), edgesExternal, Ids(stale[..i]), stale[i].Id());
        RemoveNode(stale[i]);
      }
      assert stale[..|stale|] == stale;
    }

    /** The node part of `update_graph`: the nodes of the changed sector, then of each neighbour, are created again. */
    method RebuildNodes(portals: map<SectorID, Portals>, scaled: map<SectorID, CostField>, changed: SectorID,
                        neighbours: seq<(Ordinal, SectorID)>)
      requires Valid() && changed in portals && changed in scaled
      requires forall t :: 0 <= t < |neighbours| ==> neighbours[t].1 in portals && neighbours[t].1 in scaled
      modifies this
      ensures Valid() && edgesInternal == old(edgesInternal) && edgesExternal == old(edgesExternal)
      ensures forall k :: k in nodes <==> (k in old(nodes) || IsSectorNode(changed, portals[changed], k) || NeighbourNode(portals, neighbours, k))
      ensures forall k :: k in nodes ==> nodes[k] == if k in old(nodes) then old(nodes)[k] else NodeAt(scaled, k)
    {
      CreateSectorNodes(scaled, changed, portals[changed]);
      for t := 0 to |neighbours|
        invariant Valid() && edgesInternal == old(edgesInternal) && edgesExternal == old(edgesExternal)
        invariant forall k :: k in nodes <==> (k in old(nodes) || IsSectorNode(changed, portals[changed], k) ||
          NeighbourNodeBefore(portals, neighbours, t, k))
        invariant forall k :: k in nodes ==> nodes[k] == if k in old(nodes) then old(nodes)[k] else NodeAt(scaled, k)
      {
        CreateSectorNodes(scaled, neighbours[t].1, portals[neighbours[t].1]);
        forall k ensures NeighbourNodeBefore(portals, neighbours, t + 1, k) <==>
          NeighbourNodeBefore(portals, neighbours, t, k) || IsSectorNode(neighbours[t].1, portals[neighbours[t].1], k) {
          NeighbourNodeNext(portals, neighbours, t, k);
        }
      }
      forall k ensures NeighbourNodeBefore(portals, neighbours, |neighbours|, k) <==> NeighbourNode(portals, neighbours, k) {
        NeighbourNodeAll(portals, neighbours, k);
      }
    }

    /** The internal-edge part of `update_graph`: the internal edges of the changed sector, then of each neighbour. */
    method RebuildInternalEdges(portals: map<SectorID, Portals>, scaled: map<SectorID, CostField>, changed: SectorID,
                                neighbours: seq<(Ordinal, SectorID)>)
      requires Valid() && changed in portals && changed in scaled
      requires forall t :: 0 <= t < |neighbours| ==> neighbours[t].1 in portals && neighbours[t].1 in scaled
      modifies this
      ensures Valid() && nodes == old(nodes) && edgesExternal == old(edgesExternal)
      ensures forall k :: k in edgesInternal <==>
        (k in old(edgesInternal) || IsInternalKey(changed, scaled[changed], portals[changed], k) || NeighbourInternal(portals, scaled, neighbours, k))
      ensures forall k :: k in old(edgesInternal) ==> edgesInternal[k] == old(edgesInternal)[k]
      ensures forall k :: k in edgesInternal && k !in old(edgesInternal) ==>
        k.from.sector in scaled && InternalEdgeFits(scaled[k.from.sector], edgesInternal[k])
    {
      CreateSectorInternalEdges(changed, scaled[changed], portals[changed]);
      forall k | k in edgesInternal && k !in old(edgesInternal) ensures k.from.sector == changed {
        var a, b :| InternalPair(changed, scaled[changed], PortalList(portals[changed]), a, b, k);
      }
      for t := 0 to |neighbours|
        invariant Valid() && nodes == old(nodes) && edgesExternal == old(edgesExternal)
        invariant InternalRebuilt(old(edgesInternal), edgesInternal, portals, scaled, changed, neighbours, t)
      {
        var n := neighbours[t].1;
        ghost var mid := edgesInternal;
        CreateSectorInternalEdges(n, scaled[n], portals[n]);
        InternalRebuildStep(old(edgesInternal), mid, edgesInternal, portals, scaled, changed, neighbours, t);
      }
      forall k ensures NeighbourInternalBefore(portals, scaled, neighbours, |neighbours|, k) <==> NeighbourInternal(portals, scaled, neighbours, k) {
        if NeighbourInternal(portals, scaled, neighbours, k) {
          var u :| 0 <= u < |neighbours| && neighbours[u].1 in portals && neighbours[u].1 in scaled &&
            IsInternalKey(neighbours[u].1, scaled[neighbours[u].1], portals[neighbours[u].1], k);
          assert NeighbourInternalBefore(portals, scaled, neighbours, |neighbours|, k);
        }
      }
    }

    /**
     * The external-edge part of `update_graph`: from the changed sector into
     * each neighbour, then from each neighbour back into the changed sector.
     */
    method RebuildExternalEdges(portals: map<SectorID, Portals>, scaled: map<SectorID, CostField>, changed: SectorID,
                                neighbours: seq<(Ordinal, SectorID)>)
      requires Valid() && changed in portals && ExternalReady(portals, scaled, changed, portals[changed], neighbours)
      requires forall t :: 0 <= t < |neighbours| ==>
        neighbours[t].1 in portals && ExternalReady(portals, scaled, neighbours[t].1, portals[neighbours[t].1], [(Inverse(neighbours[t].0), changed)])
      modifies this
      ensures Valid() && nodes == old(nodes) && edgesInternal == old(edgesInternal)
      ensures BackProgress(old(edgesExternal), edgesExternal, portals, scaled, changed, neighbours, |neighbours|)
    {
      CreateSectorExternalEdges(portals, scaled, changed, portals[changed], neighbours);
      for t := 0 to |neighbours|
        invariant Valid() && nodes == old(nodes) && edgesInternal == old(edgesInternal)
        invariant BackProgress(old(edgesExternal), edgesExternal, portals, scaled, changed, neighbours, t)
      {
        ghost var before := edgesExternal;
        var (side, n) := neighbours[t];
        CreateSectorExternalEdges(portals, scaled, n, portals[n], [(Inverse(side), changed)]);
        BackStep(old(edgesExternal), before, edgesExternal, portals, scaled, changed, neighbours, t);
      }
    }

    /**
     * `update_graph` after the costs of `changed` have changed and its
     * portals and its neighbours' have been recalculated: the nodes of the
     * changed sector and the neighbours' nodes facing it are dropped with
     * their edges, then the nodes, internal edges and external edges of the
     * changed sector and its neighbours are created again.
     */
    method UpdateGraph(changed: SectorID, portals: map<SectorID, Portals>, scaled: map<SectorID, CostField>, dims: MapDimensions)
      requires Valid() && UpdateReady(portals, scaled, dims, changed)
      modifies this
      ensures Valid()
      ensures UpdatedNodes(old(nodes), nodes, portals, scaled, changed, Neighbours(dims, changed))
      ensures UpdatedInternal(old(nodes), old(edgesInternal), edgesInternal, portals, scaled, changed, Neighbours(dims, changed))
      ensures UpdatedExternal(old(nodes), old(edgesExternal), edgesExternal, portals, scaled, changed, Neighbours(dims, changed))
      ensures old(Closed(nodes, edgesInternal, edgesExternal)) ==> Closed(nodes, edgesInternal, edgesExternal)
    {
      var neighbours := Neighbours(dims, changed);
      var original := nodes;
      var stale := StaleNodes(original, changed, neighbours);
      RemoveNodes(stale);
      ghost var removedNodes, removedInternal, removedExternal := nodes, edgesInternal, edgesExternal;
      RebuildNodes(portals, scaled, changed, neighbours);
      assert edgesInternal == removedInternal && edgesExternal == removedExternal;
      RebuildInternalEdges(portals, scaled, changed, neighbours);
      assert edgesExternal == removedExternal;
      RebuildExternalEdges(portals, scaled, changed, neighbours);
      NodesComposed(original, removedNodes, nodes, Ids(stale), portals, scaled, changed, neighbours);
      InternalComposed(original, old(edgesInternal), removedInternal, edgesInternal, Ids(stale), portals, scaled, changed, neighbours);
      ExternalComposed(original, old(edgesExternal), removedExternal, edgesExternal, Ids(stale), portals, scaled, changed, neighbours);
      if old(Closed(nodes, edgesInternal, edgesExternal)) {
        UpdateKeepsClosed(original, old(edgesInternal), old(edgesExternal), nodes, edgesInternal, edgesExternal,
                          portals, scaled, changed, neighbours);
      }
    }
  }

  /**
   * `PortalGraph::new`: the nodes of every portal, then the internal edges
   * of every sector, then the external edges across every boundary. Each
   * node and edge is exactly one the three passes describe.
   */
  method NewGraph(portals: map<SectorID, Portals>, scaled: map<SectorID, CostField>, dims: MapDimensions) returns (graph: PortalGraph)
    requires Buildable(portals, scaled, dims)
    ensures fresh(graph) && graph.Valid()
    ensures forall k :: k in graph.nodes <==> IsPortalNode(portals, k)
    ensures forall k :: k in graph.nodes ==> graph.nodes[k] == NodeAt(scaled, k)
    ensures forall k :: k in graph.edgesInternal <==> IsInternalEdge(portals, scaled, k)
    ensures forall k :: k in graph.edgesInternal ==> k.from.sector in scaled && InternalEdgeFits(scaled[k.from.sector], graph.edgesInternal[k])
    ensures forall k :: k in graph.edgesExternal <==> IsExternalEdge(portals, dims, k)
    ensures forall k :: k in graph.edgesExternal ==> graph.edgesExternal[k] == ExternalEdgeOf(scaled, k)
  {
    graph := new PortalGraph();
    graph.CreateAllNodes(portals, scaled);
    graph.CreateAllInternalEdges(portals, scaled);
    graph.CreateAllExternalEdges(portals, scaled, dims);
  }

  /** Every edge's two ends are nodes of the graph. */
  ghost predicate Closed(nodes: map<NodeId, Node>, internal: map<EdgeId, Edge>, external: map<EdgeId, Edge>) {
    (forall k :: k in internal ==> k.from in nodes && k.to in nodes) &&
    (forall k :: k in external ==> k.from in nodes && k.to in nodes)
  }

  /** Both ends of an internal edge are portals of its sector. */
  lemma InternalEdgeEnds(portals: map<SectorID, Portals>, scaled: map<SectorID, CostField>, k: EdgeId)
    requires IsInternalEdge(portals, scaled, k)
    ensures k.to.sector == k.from.sector && IsPortalNode(portals, k.from) && IsPortalNode(portals, k.to)
  {
    var l := PortalList(portals[k.from.sector]);
    var a, b :| InternalPair(k.from.sector, scaled[k.from.sector], l, a, b, k);
    assert l[a] in l && l[b] in l;
  }

  /**
   * An external edge of the built graph links the `i`-th portal of a sector
   * on one side to the `i`-th portal on the inverse side of the sector
   * across that side, and both ends are portals.
   */
  lemma ExternalEdgeEnds(portals: map<SectorID, Portals>, dims: MapDimensions, k: EdgeId)
    requires dims.sectorResolution > 0 && dims.Columns() > 0 && dims.Rows() > 0
    requires IsExternalEdge(portals, dims, k) && InGrid(dims, k.from.sector)
    ensures NeighbourAcross(dims, k.from.sector, k.from.side) == Some(k.to.sector) && k.to.side == Inverse(k.from.side)
    ensures exists i :: (0 <= i < |SideCells(portals[k.from.sector], k.from.side)| && i < |SideCells(portals[k.to.sector], k.to.side)| &&
      SideCells(portals[k.from.sector], k.from.side)[i] == k.from.cell && SideCells(portals[k.to.sector], k.to.side)[i] == k.to.cell)
    ensures IsPortalNode(portals, k.from) && IsPortalNode(portals, k.to)
  {
    var s := k.from.sector;
    var ns := Neighbours(dims, s);
    var t, i :| 0 <= t < |ns| && ExternalAt(portals, s, portals[s], ns[t], i, k);
    NeighbouringSectorsMeaning(dims, s);
    assert IsOrthogonal(ns[t].0);
    assert IsOrthogonal(Inverse(ns[t].0));
    assert SideCells(portals[s], ns[t].0)[i] in SideCells(portals[s], ns[t].0);
    assert SideCells(portals[ns[t].1], Inverse(ns[t].0))[i] in SideCells(portals[ns[t].1], Inverse(ns[t].0));
  }

  /**
   * The graph `new` builds from the portals of a map's sectors is closed:
   * no edge leads to or from a node the graph does not hold, and every
   * external edge weighs 1.
   */
  lemma NewGraphClosed(portals: map<SectorID, Portals>, scaled: map<SectorID, CostField>, dims: MapDimensions,
                       nodes: map<NodeId, Node>, internal: map<EdgeId, Edge>, external: map<EdgeId, Edge>)
    requires Buildable(portals, scaled, dims) && forall s :: s in portals ==> InGrid(dims, s)
    requires forall k :: k in nodes <==> IsPortalNode(portals, k)
    requires forall k :: k in internal <==> IsInternalEdge(portals, scaled, k)
    requires forall k :: k in external <==> IsExternalEdge(portals, dims, k)
    requires forall k :: k in external ==> external[k] == ExternalEdgeOf(scaled, k)
    ensures Closed(nodes, internal, external)
    ensures forall k :: k in external ==> external[k].distance == SECTOR_BOUNDARY_PORTAL_PORTAL_DISTANCE
  {
    forall k | k in internal ensures k.from in nodes && k.to in nodes {
      InternalEdgeEnds(portals, scaled, k);
    }
    forall k | k in external ensures k.from in nodes && k.to in nodes {
      ExternalEdgeEnds(portals, dims, k);
    }
  }

  /** No sector is its own neighbour, and no neighbour is listed twice. */
  lemma NeighboursDistinct(dims: MapDimensions, id: SectorID)
    requires dims.sectorResolution > 0 && dims.Columns() > 0 && dims.Rows() > 0
    ensures forall t :: 0 <= t < |Neighbours(dims, id)| ==> Neighbours(dims, id)[t].1 != id
    ensures forall t, u :: 0 <= t < u < |Neighbours(dims, id)| ==> Neighbours(dims, id)[t].1 != Neighbours(dims, id)[u].1
  {
  }

  /** Both ends of an internal edge of sector `id` are nodes of `id`'s portals. */
  lemma InternalKeyEnds(id: SectorID, field: CostField, p: Portals, k: EdgeId)
    requires IsInternalKey(id, field, p, k)
    ensures IsSectorNode(id, p, k.from) && IsSectorNode(id, p, k.to)
  {
    var l := PortalList(p);
    var a, b :| InternalPair(id, field, l, a, b, k);
    assert l[a] in l && l[b] in l;
  }

  /** The ends of the `i`-th edge across `nb.0` from `id` into `nb.1`. */
  lemma ExternalAtEnds(portals: map<SectorID, Portals>, id: SectorID, p: Portals, nb: (Ordinal, SectorID), i: int, k: EdgeId)
    requires IsOrthogonal(nb.0) && ExternalAt(portals, id, p, nb, i, k)
    ensures IsSectorNode(id, p, k.from) && IsSectorNode(nb.1, portals[nb.1], k.to)
  {
    InverseIsInvolution(nb.0);
    assert SideCells(p, nb.0)[i] in SideCells(p, nb.0);
    assert SideCells(portals[nb.1], Inverse(nb.0))[i] in SideCells(portals[nb.1], Inverse(nb.0));
  }

  /**
   * `update_graph` keeps a closed graph closed: every edge left in place
   * still has both its ends, and every edge it adds joins two nodes it
   * adds.
   */
  lemma UpdateKeepsClosed(nodes: map<NodeId, Node>, internal: map<EdgeId, Edge>, external: map<EdgeId, Edge>,
                          nodes': map<NodeId, Node>, internal': map<EdgeId, Edge>, external': map<EdgeId, Edge>,
                          portals: map<SectorID, Portals>, scaled: map<SectorID, CostField>,
                          changed: SectorID, neighbours: seq<(Ordinal, SectorID)>)
    requires changed in portals && changed in scaled
    requires forall t :: 0 <= t < |neighbours| ==> IsOrthogonal(neighbours[t].0)
    requires Closed(nodes, internal, external)
    requires UpdatedNodes(nodes, nodes', portals, scaled, changed, neighbours)
    requires UpdatedInternal(nodes, internal, internal', portals, scaled, changed, neighbours)
    requires UpdatedExternal(nodes, external, external', portals, scaled, changed, neighbours)
    ensures Closed(nodes', internal', external')
  {
    forall k | k in internal' ensures k.from in nodes' && k.to in nodes' {
      if k in internal && !Touches(nodes, changed, neighbours, k) {
      } else if IsInternalKey(changed, scaled[changed], portals[changed], k) {
        InternalKeyEnds(changed, scaled[changed], portals[changed], k);
      } else {
        var t :| 0 <= t < |neighbours| && neighbours[t].1 in portals && neighbours[t].1 in scaled &&
          IsInternalKey(neighbours[t].1, scaled[neighbours[t].1], portals[neighbours[t].1], k);
        InternalKeyEnds(neighbours[t].1, scaled[neighbours[t].1], portals[neighbours[t].1], k);
      }
    }
    forall k | k in external' ensures k.from in nodes' && k.to in nodes' {
      if k in external && !Touches(nodes, changed, neighbours, k) {
      } else if IsExternalKey(portals, changed, portals[changed], neighbours, k) {
        var t, i :| 0 <= t < |neighbours| && ExternalAt(portals, changed, portals[changed], neighbours[t], i, k);
        ExternalAtEnds(portals, changed, portals[changed], neighbours[t], i, k);
      } else {
        var u, i :| 0 <= u < |neighbours| && neighbours[u].1 in portals &&
          ExternalAt(portals, neighbours[u].1, portals[neighbours[u].1], (Inverse(neighbours[u].0), changed), i, k);
        InverseIsInvolution(neighbours[u].0);
        ExternalAtEnds(portals, neighbours[u].1, portals[neighbours[u].1], (Inverse(neighbours[u].0), changed), i, k);
      }
    }
  }

  /**
   * The nodes after `update_graph`, sector by sector: the changed sector
   * holds exactly its current portals, each neighbour holds exactly its
   * current portals on the side facing the changed sector, and every
   * sector that is neither keeps the nodes it had.
   */
  lemma UpdatedSectorNodes(before: map<NodeId, Node>, now: map<NodeId, Node>, portals: map<SectorID, Portals>,
                           scaled: map<SectorID, CostField>, changed: SectorID, neighbours: seq<(Ordinal, SectorID)>)
    requires changed in portals
    requires forall t :: 0 <= t < |neighbours| ==> neighbours[t].1 != changed
    requires UpdatedNodes(before, now, portals, scaled, changed, neighbours)
    ensures forall k: NodeId :: k.sector == changed ==>
      (k in now <==> IsSectorNode(changed, portals[changed], k)) && (k in now ==> now[k] == NodeAt(scaled, k))
    ensures forall t, k: NodeId :: 0 <= t < |neighbours| && neighbours[t].1 in portals && k.sector == neighbours[t].1 && k.side == Inverse(neighbours[t].0) ==>
      (k in now <==> IsSectorNode(neighbours[t].1, portals[neighbours[t].1], k)) && (k in now ==> now[k] == NodeAt(scaled, k))
    ensures forall k: NodeId :: k.sector != changed && (forall t :: 0 <= t < |neighbours| ==> k.sector != neighbours[t].1) ==>
      (k in now <==> k in before) && (k in now ==> now[k] == before[k])
  {
  }

  /**
   * The edges leaving the changed sector after `update_graph`, in a graph
   * that was closed: its internal edges are exactly those between its
   * current portals that reach each other, and its external edges are
   * exactly those across its boundaries to its neighbours' current
   * portals, each of distance 1.
   */
  lemma UpdatedSectorEdges(nodes: map<NodeId, Node>, internal: map<EdgeId, Edge>, external: map<EdgeId, Edge>,
                           internal': map<EdgeId, Edge>, external': map<EdgeId, Edge>,
                           portals: map<SectorID, Portals>, scaled: map<SectorID, CostField>,
                           changed: SectorID, neighbours: seq<(Ordinal, SectorID)>)
    requires changed in portals && changed in scaled
    requires forall t :: 0 <= t < |neighbours| ==> neighbours[t].1 != changed
    requires Closed(nodes, internal, external)
    requires UpdatedInternal(nodes, internal, internal', portals, scaled, changed, neighbours)
    requires UpdatedExternal(nodes, external, external', portals, scaled, changed, neighbours)
    ensures forall k: EdgeId :: k.from.sector == changed ==>
      (k in internal' <==> IsInternalKey(changed, scaled[changed], portals[changed], k)) &&
      (k in internal' ==> InternalEdgeFits(scaled[changed], internal'[k]))
    ensures forall k: EdgeId :: k.from.sector == changed ==>
      (k in external' <==> IsExternalKey(portals, changed, portals[changed], neighbours, k)) &&
      (k in external' ==> external'[k] == ExternalEdgeOf(scaled, k))
  {
    forall k: EdgeId | k.from.sector == changed
      ensures (k in internal' <==> IsInternalKey(changed, scaled[changed], portals[changed], k))
      ensures k in internal' ==> InternalEdgeFits(scaled[changed], internal'[k])
    {
      if k in internal {
        assert Touches(nodes, changed, neighbours, k);
      }
    }
    forall k: EdgeId | k.from.sector == changed
      ensures (k in external' <==> IsExternalKey(portals, changed, portals[changed], neighbours, k))
      ensures k in external' ==> external'[k] == ExternalEdgeOf(scaled, k)
    {
      if k in external {
        assert Touches(nodes, changed, neighbours, k);
      }
      assert !BackEdge(portals, changed, neighbours, |neighbours|, k);
    }
  }
}
