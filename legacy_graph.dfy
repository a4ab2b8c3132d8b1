/**
 * The older portal graph (src/flowfields/portal/portal_graph_node_edges.rs):
 * one `BTreeSet` of portal nodes and one of edges, internal and external
 * edges together, built from the portals and scaled cost fields of every
 * sector and patched sector by sector when a cost field changes. This
 * module holds the graph and its mutation; the search over it is in module
 * LegacyGraphSearch.
 *
 * A `BTreeSet` finds its elements by their `Ord`, which for nodes compares
 * sector and cell and for edges compares their two ends. A set is modelled
 * as a map from those fields to the element stored, and an insertion of an
 * element already present by the ordering keeps the stored one, as
 * `BTreeSet::insert` does.
 *
 * Whether two portal cells of a sector see each other, and after how many
 * steps, is `CostField::can_internal_portal_pair_see_each_other`, which the
 * cost field of the sector tables (src/flowfields/fields/cost_field.rs) does
 * not define; it is a function parameter of the model, of the cost field and
 * the two cells.
 */
module LegacyGraph {
  import opened Options
  import opened Geometry
  import opened Grids
  import opened Sectors
  import opened FieldCost
  import opened Portal
  import Graph

  /** `SECTOR_BOUNDARY_PORTAL_PORTAL_DISTANCE`: the distance of every external edge. */
  const SECTOR_BOUNDARY_PORTAL_PORTAL_DISTANCE: int := 5

  /** `Direction`: internal edges stay in a sector, external ones cross a boundary; the same two kinds as the newer graph's. */
  type Direction = Graph.Direction

  /** The answer of `can_internal_portal_pair_see_each_other` for a cost field and two cells: whether they see each other, and the steps taken. */
  type Visibility = (CostField, FieldCell, FieldCell) -> (bool, int)

  // ---------------------------------------------------------------------
  // Nodes, edges and their ordering

  /** `Ordering`. */
  datatype Ordering = Less | Equal | Greater

  /** The ordering of two unsigned integers. */
  function CompareNat(a: nat, b: nat): Ordering {
    if a < b then Less else if a == b then Equal else Greater
  }

  /** Lexicographic ordering: the first comparison, unless it finds the two equal. */
  function ThenCompare(first: Ordering, second: Ordering): Ordering {
    if first == Equal then second else first
  }

  /** The derived `Ord` of `SectorID`: column, then row. */
  function CompareSectors(a: SectorID, b: SectorID): Ordering {
    ThenCompare(CompareNat(a.column, b.column), CompareNat(a.row, b.row))
  }

  /** The derived `Ord` of `FieldCell`: column, then row. */
  function CompareCells(a: FieldCell, b: FieldCell): Ordering {
    ThenCompare(CompareNat(a.column, b.column), CompareNat(a.row, b.row))
  }

  /** What the ordering of `PortalNode` compares: sector and portal cell. */
  datatype NodeKey = NodeKey(sector: SectorID, cell: FieldCell)

  /** `PortalNode`: a portal cell of a sector, with the cost of travelling to it. */
  datatype PortalNode = PortalNode(sector: SectorID, cell: FieldCell, weight: int) {
    /** The fields ordering and equality compare. */
    function Key(): NodeKey {
      NodeKey(sector, cell)
    }
  }

  /** `Ord for PortalNode`: sector, then cell; the weight is left out. */
  function CompareNodes(a: PortalNode, b: PortalNode): Ordering {
    ThenCompare(CompareSectors(a.sector, b.sector), CompareCells(a.cell, b.cell))
  }

  /** `PartialEq for PortalNode`: sector and cell; the weight is left out. */
  predicate NodesEqual(a: PortalNode, b: PortalNode) {
    a.sector == b.sector && a.cell == b.cell
  }

  /** What the ordering of `PortalEdge` compares: its two ends, each by node ordering. */
  datatype EdgeKey = EdgeKey(source: NodeKey, target: NodeKey)

  /** `PortalEdge`: a directed link between two nodes, the distance along it, and its kind. */
  datatype PortalEdge = PortalEdge(source: PortalNode, target: PortalNode, distance: int, direction: Direction) {
    /** The fields ordering compares. */
    function Key(): EdgeKey {
      EdgeKey(source.Key(), target.Key())
    }

    /** `contains_source`. */
    predicate ContainsSource(node: PortalNode) {
      NodesEqual(source, node)
    }

    /** `contains_target`. */
    predicate ContainsTarget(node: PortalNode) {
      NodesEqual(target, node)
    }
  }

  /** `Ord for PortalEdge`: source node, then target node; distance and direction are left out. */
  function CompareEdges(e: PortalEdge, f: PortalEdge): Ordering {
    ThenCompare(CompareNodes(e.source, f.source), CompareNodes(e.target, f.target))
  }

  /** `PartialEq for PortalEdge`: both ends and the direction; the distance is left out. */
  predicate EdgesEqual(e: PortalEdge, f: PortalEdge) {
    NodesEqual(e.source, f.source) && NodesEqual(e.target, f.target) && e.direction == f.direction
  }

  /**
   * Node ordering and equality agree, see only sector and cell, and order
   * nodes strictly: two nodes compare equal exactly when their keys do,
   * whatever their weights, the ordering is antisymmetric and transitive.
   */
  lemma NodeOrderMeaning(a: PortalNode, b: PortalNode, c: PortalNode, w: int)
    ensures CompareNodes(a, b) == Equal <==> NodesEqual(a, b)
    ensures NodesEqual(a, b) <==> a.Key() == b.Key()
    ensures CompareNodes(a.(weight := w), b) == CompareNodes(a, b)
    ensures CompareNodes(a, b) == Less <==> CompareNodes(b, a) == Greater
    ensures CompareNodes(a, b) == Less && CompareNodes(b, c) == Less ==> CompareNodes(a, c) == Less
  {
  }

  /**
   * Edge ordering sees only the two ends, while edge equality also sees
   * the direction: two edges compare equal exactly when their keys do,
   * equal edges compare equal, but an edge and its copy of the other
   * direction compare equal without being equal.
   */
  lemma EdgeOrderMeaning(e: PortalEdge, f: PortalEdge)
    ensures CompareEdges(e, f) == Equal <==> e.Key() == f.Key()
    ensures EdgesEqual(e, f) <==> e.Key() == f.Key() && e.direction == f.direction
    ensures EdgesEqual(e, f) ==> CompareEdges(e, f) == Equal
    ensures var g := e.(direction := Graph.Flip(e.direction)); CompareEdges(e, g) == Equal && !EdgesEqual(e, g)
  {
    NodeOrderMeaning(e.source, f.source, f.source, 0);
    NodeOrderMeaning(e.target, f.target, f.target, 0);
    Graph.FlipInvolution(e.direction);
  }

  // ---------------------------------------------------------------------
  // The two sets

  /** A node set as the `BTreeSet` sees it: each stored node under its key. */
  ghost predicate NodeSet(ns: map<NodeKey, PortalNode>) {
    forall k :: k in ns ==> ns[k].Key() == k
  }

  /** An edge set as the `BTreeSet` sees it: each stored edge under its key. */
  ghost predicate EdgeSet(es: map<EdgeKey, PortalEdge>) {
    forall k :: k in es ==> es[k].Key() == k
  }

  /** `BTreeSet::insert` of a node: the stored node stays when one with the same key is present. */
  function WithNode(ns: map<NodeKey, PortalNode>, n: PortalNode): (r: map<NodeKey, PortalNode>)
    ensures n.Key() in r && r.Keys == ns.Keys + {n.Key()}
    ensures forall k :: k in ns ==> r[k] == ns[k]
    ensures n.Key() !in ns ==> r[n.Key()] == n
  {
    Graph.InsertAbsent(ns, n.Key(), n)
  }

  /** `BTreeSet::insert` of an edge: the stored edge stays when one with the same ends is present. */
  function WithEdge(es: map<EdgeKey, PortalEdge>, e: PortalEdge): (r: map<EdgeKey, PortalEdge>)
    ensures e.Key() in r && r.Keys == es.Keys + {e.Key()}
    ensures forall k :: k in es ==> r[k] == es[k]
    ensures e.Key() !in es ==> r[e.Key()] == e
  {
    Graph.InsertAbsent(es, e.Key(), e)
  }

  /**
   * The sets hold no duplicates: inserting a node or an edge equal by the
   * ordering to one inserted before changes nothing, and an insertion adds
   * one element exactly when none with its key was present.
   */
  lemma InsertNoDuplicate(ns: map<NodeKey, PortalNode>, n: PortalNode, m: PortalNode,
                          es: map<EdgeKey, PortalEdge>, e: PortalEdge, f: PortalEdge)
    requires CompareNodes(n, m) == Equal && CompareEdges(e, f) == Equal
    ensures WithNode(WithNode(ns, n), m) == WithNode(ns, n)
    ensures |WithNode(ns, n)| == if n.Key() in ns then |ns| else |ns| + 1
    ensures WithEdge(WithEdge(es, e), f) == WithEdge(es, e)
    ensures |WithEdge(es, e)| == if e.Key() in es then |es| else |es| + 1
  {
    NodeOrderMeaning(n, m, m, 0);
    EdgeOrderMeaning(e, f);
  }

  /** The edges left once every edge starting or ending at `id` is dropped. */
  function Detached(es: map<EdgeKey, PortalEdge>, id: NodeKey): (r: map<EdgeKey, PortalEdge>)
    ensures forall k :: k in r <==> k in es && k.source != id && k.target != id
    ensures forall k :: k in r ==> r[k] == es[k]
  {
    map k | k in es && k.source != id && k.target != id :: es[k]
  }

  // ---------------------------------------------------------------------
  // What the building passes create

  /**
   * `Portals::get_all`, whose body is not part of this model: the portal
   * cells of the four sides one after another, North, East, South, West,
   * the order in which `Portals::get` also yields them.
   */
  function EveryPortal(p: Portals): (r: seq<FieldCell>)
    ensures forall c :: c in r <==> c in p.north || c in p.east || c in p.south || c in p.west
  {
    p.north + p.east + p.south + p.west
  }

  /** A portal cell on one of the four sides is among all the portals. */
  lemma SideInEveryPortal(p: Portals, side: Ordinal, c: FieldCell)
    requires c in Graph.SideCells(p, side)
    ensures c in EveryPortal(p)
  {
  }

  /** The cost of a node's cell in its sector's scaled field, as `i32`; no sector, no cost. */
  function CellWeight(scaled: map<SectorID, CostField>, k: NodeKey): int {
    if k.sector in scaled then GetCost(scaled[k.sector], k.cell) as int else 0
  }

  /** The node with key `k`, weighted as the building passes weight it. */
  function NodeAt(scaled: map<SectorID, CostField>, k: NodeKey): (n: PortalNode)
    ensures n.Key() == k
  {
    PortalNode(k.sector, k.cell, CellWeight(scaled, k))
  }

  /** `k` is the node of a portal of some sector of `portals`. */
  ghost predicate IsPortalNode(portals: map<SectorID, Portals>, k: NodeKey) {
    k.sector in portals && k.cell in EveryPortal(portals[k.sector])
  }

  /**
   * The pair `(a, b)` of `build_sector_internal_edges`: two different
   * entries of the portal list `l` that see each other, and `k` is the
   * edge from the first to the second.
   */
  ghost predicate InternalPair(id: SectorID, field: CostField, sees: Visibility, l: seq<FieldCell>, a: int, b: int, k: EdgeKey) {
    0 <= a < |l| && 0 <= b < |l| && a != b && sees(field, l[a], l[b]).0 &&
    k == EdgeKey(NodeKey(id, l[a]), NodeKey(id, l[b]))
  }

  /** `k` is an edge `build_sector_internal_edges` creates for the cells `l` of sector `id`. */
  ghost predicate IsPairKey(id: SectorID, field: CostField, sees: Visibility, l: seq<FieldCell>, k: EdgeKey) {
    exists a, b :: InternalPair(id, field, sees, l, a, b, k)
  }

  /** The internal edge with the ends `k`: both ends weighted by `field`, the distance the visibility test counted. */
  function InternalEdgeOf(field: CostField, sees: Visibility, k: EdgeKey): (e: PortalEdge)
    ensures e.Key() == k && e.direction == Graph.Internal
  {
    PortalEdge(PortalNode(k.source.sector, k.source.cell, GetCost(field, k.source.cell) as int),
               PortalNode(k.target.sector, k.target.cell, GetCost(field, k.target.cell) as int),
               sees(field, k.source.cell, k.target.cell).1, Graph.Internal)
  }

  /** `k` is an internal edge of some sector of `portals`, judged by that sector's scaled costs. */
  ghost predicate IsInternalEdge(portals: map<SectorID, Portals>, scaled: map<SectorID, CostField>, sees: Visibility, k: EdgeKey) {
    k.source.sector in portals && k.source.sector in scaled &&
    IsPairKey(k.source.sector, scaled[k.source.sector], sees, EveryPortal(portals[k.source.sector]), k)
  }

  /** Both ends of an edge of the internal pass are cells of the list, in sector `id`. */
  lemma PairKeyEnds(id: SectorID, field: CostField, sees: Visibility, l: seq<FieldCell>, k: EdgeKey)
    requires IsPairKey(id, field, sees, l, k)
    ensures k.source.sector == id && k.target.sector == id && k.source.cell in l && k.target.cell in l
    ensures sees(field, k.source.cell, k.target.cell).0
  {
    var a, b :| InternalPair(id, field, sees, l, a, b, k);
  }

  /**
   * Position `i` of the external pass across the side `nb.0` into sector
   * `nb.1`: `k` links the `i`-th portal of `id` on that side to the `i`-th
   * portal of the neighbour on the inverse side.
   */
  ghost predicate ExternalAt(portals: map<SectorID, Portals>, id: SectorID, p: Portals, nb: (Ordinal, SectorID), i: int, k: EdgeKey) {
    nb.1 in portals && 0 <= i < |Graph.SideCells(p, nb.0)| && i < |Graph.SideCells(portals[nb.1], Inverse(nb.0))| &&
    k == EdgeKey(NodeKey(id, Graph.SideCells(p, nb.0)[i]), NodeKey(nb.1, Graph.SideCells(portals[nb.1], Inverse(nb.0))[i]))
  }

  /** `k` is an external edge from sector `id` into one of the listed neighbours. */
  ghost predicate IsExternalKey(portals: map<SectorID, Portals>, id: SectorID, p: Portals, neighbours: seq<(Ordinal, SectorID)>, k: EdgeKey) {
    exists t, i :: 0 <= t < |neighbours| && ExternalAt(portals, id, p, neighbours[t], i, k)
  }

  /** The external edge with the ends `k`, as the external passes store it: distance 5. */
  function ExternalEdgeOf(scaled: map<SectorID, CostField>, k: EdgeKey): (e: PortalEdge)
    ensures e.Key() == k && e.direction == Graph.External && e.distance == SECTOR_BOUNDARY_PORTAL_PORTAL_DISTANCE
  {
    PortalEdge(NodeAt(scaled, k.source), NodeAt(scaled, k.target), SECTOR_BOUNDARY_PORTAL_PORTAL_DISTANCE, Graph.External)
  }

  /** `k` is an external edge from some sector of `portals` into one of its neighbours on the map. */
  ghost predicate IsExternalEdge(portals: map<SectorID, Portals>, dims: MapDimensions, k: EdgeKey)
    requires dims.sectorResolution > 0 && dims.Columns() > 0 && dims.Rows() > 0
  {
    k.source.sector in portals && IsExternalKey(portals, k.source.sector, portals[k.source.sector], Graph.Neighbours(dims, k.source.sector), k)
  }

  /** An external edge of the map leaves its sector for another: the ends lie in different sectors. */
  lemma ExternalEdgeCrosses(portals: map<SectorID, Portals>, dims: MapDimensions, k: EdgeKey)
    requires dims.sectorResolution > 0 && dims.Columns() > 0 && dims.Rows() > 0
    requires IsExternalEdge(portals, dims, k)
    ensures k.source.sector != k.target.sector
  {
    var ns := Graph.Neighbours(dims, k.source.sector);
    var t, i :| 0 <= t < |ns| && ExternalAt(portals, k.source.sector, portals[k.source.sector], ns[t], i, k);
    Graph.NeighboursDistinct(dims, k.source.sector);
  }

  /** The edge with the ends `k` as the building passes store it: internal within a sector, external across sectors. */
  function EdgeAt(scaled: map<SectorID, CostField>, sees: Visibility, k: EdgeKey): (e: PortalEdge)
    ensures e.Key() == k
  {
    if k.source.sector == k.target.sector && k.source.sector in scaled then InternalEdgeOf(scaled[k.source.sector], sees, k)
    else ExternalEdgeOf(scaled, k)
  }

  /**
   * The graph `new` and `reset_graph` build: a node for every portal of every
   * sector, weighted by its cell's scaled cost, an internal edge between
   * every two entries of a sector's portal list that see each other, and an
   * external edge from every portal on a side to the portal at the same
   * position on the facing side of the neighbour.
   */
  ghost predicate Built(portals: map<SectorID, Portals>, scaled: map<SectorID, CostField>, dims: MapDimensions, sees: Visibility,
                        nodes: map<NodeKey, PortalNode>, edges: map<EdgeKey, PortalEdge>)
    requires dims.sectorResolution > 0 && dims.Columns() > 0 && dims.Rows() > 0
  {
    (forall k :: k in nodes <==> IsPortalNode(portals, k)) &&
    (forall k :: k in nodes ==> nodes[k] == NodeAt(scaled, k)) &&
    (forall k :: k in edges <==> IsInternalEdge(portals, scaled, sees, k) || IsExternalEdge(portals, dims, k)) &&
    (forall k :: k in edges ==> edges[k] == EdgeAt(scaled, sees, k))
  }

  // ---------------------------------------------------------------------
  // Loop states of the building passes

  /** The internal pass over `l` has covered the pairs `(a, b)` before `(i, j)` in row order. */
  ghost predicate PairBefore(id: SectorID, field: CostField, sees: Visibility, l: seq<FieldCell>, k: EdgeKey, i: int, j: int) {
    exists a, b :: InternalPair(id, field, sees, l, a, b, k) && (a < i || (a == i && b < j))
  }

  /** The edge set as the internal pass leaves it once it has reached the pair `(i, j)`. */
  ghost predicate InternalProgress(before: map<EdgeKey, PortalEdge>, now: map<EdgeKey, PortalEdge>, id: SectorID, field: CostField,
                                   sees: Visibility, l: seq<FieldCell>, i: int, j: int) {
    (forall k :: k in now <==> k in before || PairBefore(id, field, sees, l, k, i, j)) &&
    (forall k :: k in now ==> now[k] == if k in before then before[k] else InternalEdgeOf(field, sees, k))
  }

  /** The key of the pair `(i, j)` of the internal pass. */
  function PairKey(id: SectorID, l: seq<FieldCell>, i: nat, j: nat): EdgeKey
    requires i < |l| && j < |l|
  {
    EdgeKey(NodeKey(id, l[i]), NodeKey(id, l[j]))
  }

  /** One pair of the internal pass: an edge when the two entries differ and see each other. */
  lemma InternalStep(before: map<EdgeKey, PortalEdge>, now: map<EdgeKey, PortalEdge>, id: SectorID, field: CostField,
                     sees: Visibility, l: seq<FieldCell>, i: nat, j: nat)
    requires i < |l| && j < |l| && InternalProgress(before, now, id, field, sees, l, i, j)
    ensures var added := i != j && sees(field, l[i], l[j]).0;
      InternalProgress(before, if added then WithEdge(now, InternalEdgeOf(field, sees, PairKey(id, l, i, j))) else now,
                       id, field, sees, l, i, j + 1)
  {
    var added := i != j && sees(field, l[i], l[j]).0;
    var after := if added then WithEdge(now, InternalEdgeOf(field, sees, PairKey(id, l, i, j))) else now;
    forall k ensures k in after <==> k in before || PairBefore(id, field, sees, l, k, i, j + 1) {
      if PairBefore(id, field, sees, l, k, i, j + 1) && !PairBefore(id, field, sees, l, k, i, j) {
        var a, b :| InternalPair(id, field, sees, l, a, b, k) && (a < i || (a == i && b < j + 1));
        assert a == i && b == j;
      }
      if added && k == PairKey(id, l, i, j) {
        assert InternalPair(id, field, sees, l, i, j, k);
      }
    }
  }

  /** The internal pass moves on from one row of pairs to the next. */
  lemma InternalNextRow(before: map<EdgeKey, PortalEdge>, now: map<EdgeKey, PortalEdge>, id: SectorID, field: CostField,
                        sees: Visibility, l: seq<FieldCell>, i: nat)
    requires InternalProgress(before, now, id, field, sees, l, i, |l|)
    ensures InternalProgress(before, now, id, field, sees, l, i + 1, 0)
  {
    forall k ensures PairBefore(id, field, sees, l, k, i, |l|) <==> PairBefore(id, field, sees, l, k, i + 1, 0) {
      if PairBefore(id, field, sees, l, k, i + 1, 0) {
        var a, b :| InternalPair(id, field, sees, l, a, b, k) && (a < i + 1 || (a == i + 1 && b < 0));
        assert a < i || (a == i && b < |l|);
      }
    }
  }

  /** The external pass has covered the neighbours before `t`, then the first `c` portals towards neighbour `t`. */
  ghost predicate ExternalProgress(before: map<EdgeKey, PortalEdge>, now: map<EdgeKey, PortalEdge>, portals: map<SectorID, Portals>,
                                   scaled: map<SectorID, CostField>, id: SectorID, p: Portals,
                                   neighbours: seq<(Ordinal, SectorID)>, t: int, c: int) {
    (forall k :: k in now <==> (k in before || ExternalBefore(portals, id, p, neighbours, t, c, k))) &&
    (forall k :: k in now ==> now[k] == if k in before then before[k] else ExternalEdgeOf(scaled, k))
  }

  /** `k` is an external edge the pass adds before portal `c` towards neighbour `t`. */
  ghost predicate ExternalBefore(portals: map<SectorID, Portals>, id: SectorID, p: Portals,
                                 neighbours: seq<(Ordinal, SectorID)>, t: int, c: int, k: EdgeKey) {
    exists u, i :: 0 <= u < |neighbours| && ExternalAt(portals, id, p, neighbours[u], i, k) && (u < t || (u == t && i < c))
  }

  /** One portal of the external pass. */
  lemma ExternalStep(before: map<EdgeKey, PortalEdge>, now: map<EdgeKey, PortalEdge>, portals: map<SectorID, Portals>,
                     scaled: map<SectorID, CostField>, id: SectorID, p: Portals,
                     neighbours: seq<(Ordinal, SectorID)>, t: nat, c: nat, k: EdgeKey)
    requires t < |neighbours| && ExternalAt(portals, id, p, neighbours[t], c, k)
    requires ExternalProgress(before, now, portals, scaled, id, p, neighbours, t, c)
    ensures ExternalProgress(before, WithEdge(now, ExternalEdgeOf(scaled, k)), portals, scaled, id, p, neighbours, t, c + 1)
  {
    var e := ExternalEdgeOf(scaled, k);
    var now' := WithEdge(now, e);
    forall k' ensures k' in now' <==> (k' in before || ExternalBefore(portals, id, p, neighbours, t, c + 1, k')) {
      ExternalBeforeStep(portals, id, p, neighbours, t, c, k, k');
    }
    forall k' | k' in now' ensures now'[k'] == if k' in before then before[k'] else ExternalEdgeOf(scaled, k') {
      if k' !in now {
        assert k' == e.Key();
      }
    }
  }

  /** The edges before portal `c + 1` are those before portal `c` and the edge of portal `c`. */
  lemma ExternalBeforeStep(portals: map<SectorID, Portals>, id: SectorID, p: Portals,
                           neighbours: seq<(Ordinal, SectorID)>, t: nat, c: nat, k: EdgeKey, k': EdgeKey)
    requires t < |neighbours| && ExternalAt(portals, id, p, neighbours[t], c, k)
    ensures ExternalBefore(portals, id, p, neighbours, t, c + 1, k') <==>
            k' == k || ExternalBefore(portals, id, p, neighbours, t, c, k')
  {
    if ExternalBefore(portals, id, p, neighbours, t, c + 1, k') {
      var u, i :| 0 <= u < |neighbours| && ExternalAt(portals, id, p, neighbours[u], i, k') && (u < t || (u == t && i < c + 1));
      if u != t || i != c {
        assert ExternalBefore(portals, id, p, neighbours, t, c, k');
      }
    }
    if k' == k {
      assert ExternalAt(portals, id, p, neighbours[t], c, k');
    } else if ExternalBefore(portals, id, p, neighbours, t, c, k') {
      var u, i :| 0 <= u < |neighbours| && ExternalAt(portals, id, p, neighbours[u], i, k') && (u < t || (u == t && i < c));
      assert u < t || (u == t && i < c + 1);
    }
  }

  /** The external pass moves on from one neighbour to the next. */
  lemma ExternalNextNeighbour(before: map<EdgeKey, PortalEdge>, now: map<EdgeKey, PortalEdge>, portals: map<SectorID, Portals>,
                              scaled: map<SectorID, CostField>, id: SectorID, p: Portals,
                              neighbours: seq<(Ordinal, SectorID)>, t: nat)
    requires t < |neighbours| && ExternalProgress(before, now, portals, scaled, id, p, neighbours, t, |Graph.SideCells(p, neighbours[t].0)|)
    ensures ExternalProgress(before, now, portals, scaled, id, p, neighbours, t + 1, 0)
  {
    forall k ensures ExternalBefore(portals, id, p, neighbours, t + 1, 0, k) <==>
                     ExternalBefore(portals, id, p, neighbours, t, |Graph.SideCells(p, neighbours[t].0)|, k) {
      if ExternalBefore(portals, id, p, neighbours, t + 1, 0, k) {
        var u, i :| 0 <= u < |neighbours| && ExternalAt(portals, id, p, neighbours[u], i, k) && (u < t + 1 || (u == t + 1 && i < 0));
        assert u < t || (u == t && i < |Graph.SideCells(p, neighbours[t].0)|);
      }
    }
  }

  // ---------------------------------------------------------------------
  // What `update_graph` changes

  /**
   * A neighbour `nb` of the changed sector, as `get_ordinal_and_ids_of_neighbouring_sectors`
   * lists it: the side of the changed sector it lies across, and its id.
   * `k` is a node of `copy` in that neighbour on its side facing the changed sector.
   */
  ghost predicate Boundary(copy: map<NodeKey, PortalNode>, nb: (Ordinal, SectorID), k: NodeKey) {
    k in copy && k.sector == nb.1 && OnSide(Inverse(nb.0), k.cell)
  }

  /** The portal cells of neighbour `nb` on its side facing the changed sector. */
  function FacingCells(portals: map<SectorID, Portals>, nb: (Ordinal, SectorID)): seq<FieldCell>
    requires nb.1 in portals
  {
    Graph.SideCells(portals[nb.1], Inverse(nb.0))
  }

  /** A boundary node `replace_old_neighbour_nodes` removes: its cell is no longer a portal on that side. */
  ghost predicate Retired(copy: map<NodeKey, PortalNode>, portals: map<SectorID, Portals>, nb: (Ordinal, SectorID), k: NodeKey) {
    Boundary(copy, nb, k) && nb.1 in portals && k.cell !in FacingCells(portals, nb)
  }

  /** A node `replace_old_neighbour_nodes` inserts: a portal of the neighbour on the side facing the changed sector. */
  ghost predicate FacingNode(portals: map<SectorID, Portals>, nb: (Ordinal, SectorID), k: NodeKey) {
    nb.1 in portals && k.sector == nb.1 && k.cell in FacingCells(portals, nb)
  }

  /** An edge `replace_old_neighbour_nodes` removes: one of `copy` that ends at a boundary node of the neighbour. */
  ghost predicate Targeted(copyNodes: map<NodeKey, PortalNode>, copyEdges: map<EdgeKey, PortalEdge>, nb: (Ordinal, SectorID), k: EdgeKey) {
    k in copyEdges && Boundary(copyNodes, nb, k.target)
  }

  /** An internal edge of the neighbour, as `replace_old_neighbour_nodes` rebuilds them. */
  ghost predicate NeighbourPair(portals: map<SectorID, Portals>, scaled: map<SectorID, CostField>, sees: Visibility,
                                nb: (Ordinal, SectorID), k: EdgeKey) {
    nb.1 in portals && nb.1 in scaled && IsPairKey(nb.1, scaled[nb.1], sees, EveryPortal(portals[nb.1]), k)
  }

  /** Some neighbour before `n` retired node `k`. */
  ghost predicate RetiredBefore(copy: map<NodeKey, PortalNode>, portals: map<SectorID, Portals>, ns: seq<(Ordinal, SectorID)>, n: int, k: NodeKey) {
    exists t :: 0 <= t < n && t < |ns| && Retired(copy, portals, ns[t], k)
  }

  /** Some neighbour before `n` inserted node `k`. */
  ghost predicate FacingBefore(portals: map<SectorID, Portals>, ns: seq<(Ordinal, SectorID)>, n: int, k: NodeKey) {
    exists t :: 0 <= t < n && t < |ns| && FacingNode(portals, ns[t], k)
  }

  /** Some neighbour before `n` removed edge `k`. */
  ghost predicate TargetedBefore(copyNodes: map<NodeKey, PortalNode>, copyEdges: map<EdgeKey, PortalEdge>,
                                 ns: seq<(Ordinal, SectorID)>, n: int, k: EdgeKey) {
    exists t :: 0 <= t < n && t < |ns| && Targeted(copyNodes, copyEdges, ns[t], k)
  }

  /** Some neighbour before `n` rebuilt internal edge `k`. */
  ghost predicate PairOfBefore(portals: map<SectorID, Portals>, scaled: map<SectorID, CostField>, sees: Visibility,
                               ns: seq<(Ordinal, SectorID)>, n: int, k: EdgeKey) {
    exists t :: 0 <= t < n && t < |ns| && NeighbourPair(portals, scaled, sees, ns[t], k)
  }

  /** The listed neighbours are different sectors. */
  ghost predicate DistinctSectors(ns: seq<(Ordinal, SectorID)>) {
    forall a, b :: 0 <= a < b < |ns| ==> ns[a].1 != ns[b].1
  }

  /** What one neighbour of `replace_old_neighbour_nodes` does to the nodes `n1` and edges `e1`, judged against the copy `copyNodes`, `copyEdges`. */
  ghost predicate SideReplaced(copyNodes: map<NodeKey, PortalNode>, copyEdges: map<EdgeKey, PortalEdge>,
                               n1: map<NodeKey, PortalNode>, e1: map<EdgeKey, PortalEdge>,
                               n2: map<NodeKey, PortalNode>, e2: map<EdgeKey, PortalEdge>,
                               portals: map<SectorID, Portals>, scaled: map<SectorID, CostField>, sees: Visibility, nb: (Ordinal, SectorID))
    requires nb.1 in scaled
  {
    (forall k :: k in n2 <==> (k in n1 && !Retired(copyNodes, portals, nb, k)) || FacingNode(portals, nb, k)) &&
    (forall k :: k in n2 ==> n2[k] == if k in n1 then n1[k] else NodeAt(scaled, k)) &&
    (forall k :: k in e2 <==> (k in e1 && !Targeted(copyNodes, copyEdges, nb, k)) || NeighbourPair(portals, scaled, sees, nb, k)) &&
    (forall k :: k in e2 ==> e2[k] == if k in e1 && !Targeted(copyNodes, copyEdges, nb, k) then e1[k] else InternalEdgeOf(scaled[nb.1], sees, k))
  }

  /** The graph once `replace_old_neighbour_nodes` has handled the first `n` neighbours, starting from the nodes `n0` and edges `e0`. */
  ghost predicate OldReplaced(n0: map<NodeKey, PortalNode>, e0: map<EdgeKey, PortalEdge>,
                              nodes: map<NodeKey, PortalNode>, edges: map<EdgeKey, PortalEdge>,
                              portals: map<SectorID, Portals>, scaled: map<SectorID, CostField>, sees: Visibility,
                              ns: seq<(Ordinal, SectorID)>, n: int) {
    (forall k :: k in nodes <==> (k in n0 && !RetiredBefore(n0, portals, ns, n, k)) || FacingBefore(portals, ns, n, k)) &&
    (forall k :: k in nodes ==> nodes[k] == if k in n0 then n0[k] else NodeAt(scaled, k)) &&
    (forall k :: k in edges <==> (k in e0 && !TargetedBefore(n0, e0, ns, n, k)) || PairOfBefore(portals, scaled, sees, ns, n, k)) &&
    (forall k :: k in edges ==>
      if k in e0 && !TargetedBefore(n0, e0, ns, n, k) then edges[k] == e0[k]
      else k.source.sector in scaled && edges[k] == InternalEdgeOf(scaled[k.source.sector], sees, k))
  }

  /** The node set after one more neighbour. */
  lemma OldNodesStep(n0: map<NodeKey, PortalNode>, nodes: map<NodeKey, PortalNode>, after: map<NodeKey, PortalNode>,
                     portals: map<SectorID, Portals>, scaled: map<SectorID, CostField>, ns: seq<(Ordinal, SectorID)>, n: nat)
    requires n < |ns| && DistinctSectors(ns)
    requires forall k :: k in nodes <==> (k in n0 && !RetiredBefore(n0, portals, ns, n, k)) || FacingBefore(portals, ns, n, k)
    requires forall k :: k in nodes ==> nodes[k] == if k in n0 then n0[k] else NodeAt(scaled, k)
    requires forall k :: k in after <==> (k in nodes && !Retired(n0, portals, ns[n], k)) || FacingNode(portals, ns[n], k)
    requires forall k :: k in after ==> after[k] == if k in nodes then nodes[k] else NodeAt(scaled, k)
    ensures forall k :: k in after <==> (k in n0 && !RetiredBefore(n0, portals, ns, n + 1, k)) || FacingBefore(portals, ns, n + 1, k)
    ensures forall k :: k in after ==> after[k] == if k in n0 then n0[k] else NodeAt(scaled, k)
  {
    forall k ensures k in after <==> (k in n0 && !RetiredBefore(n0, portals, ns, n + 1, k)) || FacingBefore(portals, ns, n + 1, k) {
      if FacingBefore(portals, ns, n, k) {
        var t :| 0 <= t < n && t < |ns| && FacingNode(portals, ns[t], k);
        assert !Retired(n0, portals, ns[n], k);
      }
      if RetiredBefore(n0, portals, ns, n + 1, k) && !RetiredBefore(n0, portals, ns, n, k) {
        assert Retired(n0, portals, ns[n], k);
      }
      if Retired(n0, portals, ns[n], k) {
        assert !FacingNode(portals, ns[n], k);
      }
      if FacingNode(portals, ns[n], k) {
        assert FacingBefore(portals, ns, n + 1, k);
      }
      if FacingBefore(portals, ns, n + 1, k) && !FacingBefore(portals, ns, n, k) {
        assert FacingNode(portals, ns[n], k);
      }
    }
  }

  /** The edge set after one more neighbour. */
  lemma OldEdgesStep(n0: map<NodeKey, PortalNode>, e0: map<EdgeKey, PortalEdge>, edges: map<EdgeKey, PortalEdge>, after: map<EdgeKey, PortalEdge>,
                     portals: map<SectorID, Portals>, scaled: map<SectorID, CostField>, sees: Visibility, ns: seq<(Ordinal, SectorID)>, n: nat)
    requires n < |ns| && DistinctSectors(ns) && ns[n].1 in scaled
    requires forall k :: k in edges <==> (k in e0 && !TargetedBefore(n0, e0, ns, n, k)) || PairOfBefore(portals, scaled, sees, ns, n, k)
    requires forall k :: k in edges ==>
      if k in e0 && !TargetedBefore(n0, e0, ns, n, k) then edges[k] == e0[k]
      else k.source.sector in scaled && edges[k] == InternalEdgeOf(scaled[k.source.sector], sees, k)
    requires forall k :: k in after <==> (k in edges && !Targeted(n0, e0, ns[n], k)) || NeighbourPair(portals, scaled, sees, ns[n], k)
    requires forall k :: k in after ==> after[k] == if k in edges && !Targeted(n0, e0, ns[n], k) then edges[k] else InternalEdgeOf(scaled[ns[n].1], sees, k)
    ensures forall k :: k in after <==> (k in e0 && !TargetedBefore(n0, e0, ns, n + 1, k)) || PairOfBefore(portals, scaled, sees, ns, n + 1, k)
    ensures forall k :: k in after ==>
      if k in e0 && !TargetedBefore(n0, e0, ns, n + 1, k) then after[k] == e0[k]
      else k.source.sector in scaled && after[k] == InternalEdgeOf(scaled[k.source.sector], sees, k)
  {
    forall k ensures k in after <==> (k in e0 && !TargetedBefore(n0, e0, ns, n + 1, k)) || PairOfBefore(portals, scaled, sees, ns, n + 1, k) {
      if PairOfBefore(portals, scaled, sees, ns, n, k) {
        var t :| 0 <= t < n && t < |ns| && NeighbourPair(portals, scaled, sees, ns[t], k);
        PairKeyEnds(ns[t].1, scaled[ns[t].1], sees, EveryPortal(portals[ns[t].1]), k);
        assert !Targeted(n0, e0, ns[n], k);
      }
      if TargetedBefore(n0, e0, ns, n + 1, k) && !TargetedBefore(n0, e0, ns, n, k) {
        assert Targeted(n0, e0, ns[n], k);
      }
      if NeighbourPair(portals, scaled, sees, ns[n], k) {
        assert PairOfBefore(portals, scaled, sees, ns, n + 1, k);
      }
      if PairOfBefore(portals, scaled, sees, ns, n + 1, k) && !PairOfBefore(portals, scaled, sees, ns, n, k) {
        assert NeighbourPair(portals, scaled, sees, ns[n], k);
      }
    }
    forall k | k in after
      ensures if k in e0 && !TargetedBefore(n0, e0, ns, n + 1, k) then after[k] == e0[k]
              else k.source.sector in scaled && after[k] == InternalEdgeOf(scaled[k.source.sector], sees, k)
    {
      if !(k in edges && !Targeted(n0, e0, ns[n], k)) {
        PairKeyEnds(ns[n].1, scaled[ns[n].1], sees, EveryPortal(portals[ns[n].1]), k);
        if k in e0 && !TargetedBefore(n0, e0, ns, n, k) {
          assert TargetedBefore(n0, e0, ns, n + 1, k);
        }
      } else if k in e0 && !TargetedBefore(n0, e0, ns, n, k) {
        assert !TargetedBefore(n0, e0, ns, n + 1, k);
      }
    }
  }

  /** What `replace_changed_sector_nodes` does to the nodes `n1` and edges `e1`. */
  ghost predicate ChangedReplaced(n1: map<NodeKey, PortalNode>, e1: map<EdgeKey, PortalEdge>,
                                  n2: map<NodeKey, PortalNode>, e2: map<EdgeKey, PortalEdge>,
                                  portals: map<SectorID, Portals>, scaled: map<SectorID, CostField>, sees: Visibility, changed: SectorID)
    requires changed in portals && changed in scaled
  {
    (forall k :: k in n2 <==> (k in n1 && k.sector != changed) || (k.sector == changed && k.cell in EveryPortal(portals[changed]))) &&
    (forall k :: k in n2 ==> n2[k] == if k.sector != changed then n1[k] else NodeAt(scaled, k)) &&
    (forall k :: k in e2 <==> k in e1 || IsPairKey(changed, scaled[changed], sees, EveryPortal(portals[changed]), k)) &&
    (forall k :: k in e2 ==> e2[k] == if k in e1 then e1[k] else InternalEdgeOf(scaled[changed], sees, k))
  }

  /** An external edge from the changed sector across the side facing one of the first `t` neighbours. */
  ghost predicate OutKey(portals: map<SectorID, Portals>, changed: SectorID, ns: seq<(Ordinal, SectorID)>, t: int, k: EdgeKey)
    requires changed in portals
  {
    exists u, i :: 0 <= u < t && u < |ns| && ExternalAt(portals, changed, portals[changed], ns[u], i, k)
  }

  /** An external edge from one of the first `t` neighbours back into the changed sector. */
  ghost predicate BackKey(portals: map<SectorID, Portals>, changed: SectorID, ns: seq<(Ordinal, SectorID)>, t: int, k: EdgeKey) {
    exists u, i :: 0 <= u < t && u < |ns| && ns[u].1 in portals &&
      ExternalAt(portals, ns[u].1, portals[ns[u].1], (Inverse(ns[u].0), changed), i, k)
  }

  /** The edge loop of `update_graph` has added the out edges towards the first `o` neighbours and the back edges of the first `b`. */
  ghost predicate LinkProgress(before: map<EdgeKey, PortalEdge>, now: map<EdgeKey, PortalEdge>, portals: map<SectorID, Portals>,
                               scaled: map<SectorID, CostField>, changed: SectorID, ns: seq<(Ordinal, SectorID)>, o: int, b: int)
    requires changed in portals
  {
    (forall k :: k in now <==> k in before || OutKey(portals, changed, ns, o, k) || BackKey(portals, changed, ns, b, k)) &&
    (forall k :: k in now ==> now[k] == if k in before then before[k] else ExternalEdgeOf(scaled, k))
  }

  /** The external pass over a single neighbour. */
  lemma SingleExternal(portals: map<SectorID, Portals>, id: SectorID, p: Portals, nb: (Ordinal, SectorID), k: EdgeKey)
    ensures IsExternalKey(portals, id, p, [nb], k) <==> exists i :: ExternalAt(portals, id, p, nb, i, k)
  {
    if exists i :: ExternalAt(portals, id, p, nb, i, k) {
      var i :| ExternalAt(portals, id, p, nb, i, k);
      assert [nb][0] == nb;
    }
  }

  /** The out edges across the side facing neighbour `t` extend those before it. */
  lemma OutKeyNext(portals: map<SectorID, Portals>, changed: SectorID, ns: seq<(Ordinal, SectorID)>, t: nat)
    requires changed in portals && t < |ns|
    ensures forall k :: OutKey(portals, changed, ns, t + 1, k) <==>
      OutKey(portals, changed, ns, t, k) || IsExternalKey(portals, changed, portals[changed], [ns[t]], k)
  {
    forall k ensures OutKey(portals, changed, ns, t + 1, k) <==>
      OutKey(portals, changed, ns, t, k) || IsExternalKey(portals, changed, portals[changed], [ns[t]], k)
    {
      SingleExternal(portals, changed, portals[changed], ns[t], k);
    }
  }

  /** The back edges from neighbour `t` extend those before it. */
  lemma BackKeyNext(portals: map<SectorID, Portals>, changed: SectorID, ns: seq<(Ordinal, SectorID)>, t: nat)
    requires t < |ns| && ns[t].1 in portals
    ensures forall k :: BackKey(portals, changed, ns, t + 1, k) <==>
      BackKey(portals, changed, ns, t, k) || IsExternalKey(portals, ns[t].1, portals[ns[t].1], [(Inverse(ns[t].0), changed)], k)
  {
    forall k ensures BackKey(portals, changed, ns, t + 1, k) <==>
      BackKey(portals, changed, ns, t, k) || IsExternalKey(portals, ns[t].1, portals[ns[t].1], [(Inverse(ns[t].0), changed)], k)
    {
      SingleExternal(portals, ns[t].1, portals[ns[t].1], (Inverse(ns[t].0), changed), k);
    }
  }

  /** The out edges towards neighbour `t`. */
  lemma LinkOutStep(before: map<EdgeKey, PortalEdge>, now: map<EdgeKey, PortalEdge>, after: map<EdgeKey, PortalEdge>,
                    portals: map<SectorID, Portals>, scaled: map<SectorID, CostField>, changed: SectorID, ns: seq<(Ordinal, SectorID)>, t: nat)
    requires changed in portals && t < |ns|
    requires LinkProgress(before, now, portals, scaled, changed, ns, t, t)
    requires forall k :: k in after <==> k in now || IsExternalKey(portals, changed, portals[changed], [ns[t]], k)
    requires forall k :: k in after ==> after[k] == if k in now then now[k] else ExternalEdgeOf(scaled, k)
    ensures LinkProgress(before, after, portals, scaled, changed, ns, t + 1, t)
  {
    OutKeyNext(portals, changed, ns, t);
  }

  /** The back edges from neighbour `t`. */
  lemma LinkBackStep(before: map<EdgeKey, PortalEdge>, now: map<EdgeKey, PortalEdge>, after: map<EdgeKey, PortalEdge>,
                     portals: map<SectorID, Portals>, scaled: map<SectorID, CostField>, changed: SectorID, ns: seq<(Ordinal, SectorID)>, t: nat)
    requires changed in portals && t < |ns| && ns[t].1 in portals
    requires LinkProgress(before, now, portals, scaled, changed, ns, t + 1, t)
    requires forall k :: k in after <==> k in now || IsExternalKey(portals, ns[t].1, portals[ns[t].1], [(Inverse(ns[t].0), changed)], k)
    requires forall k :: k in after ==> after[k] == if k in now then now[k] else ExternalEdgeOf(scaled, k)
    ensures LinkProgress(before, after, portals, scaled, changed, ns, t + 1, t + 1)
  {
    BackKeyNext(portals, changed, ns, t);
  }

  /**
   * The graph after `update_graph` of sector `changed`, starting from the
   * nodes `n0` and edges `e0`, with `ns` the neighbours of the changed
   * sector:
   *  - of the old nodes, those of the changed sector and the retired
   *    boundary nodes of the neighbours go; every other old node stays with
   *    its old weight, including a boundary node whose cell is still a
   *    portal;
   *  - a node is added for every portal of the changed sector and every
   *    portal of a neighbour on its side facing the changed sector;
   *  - of the old edges, only those ending at an old boundary node of a
   *    neighbour go; every other old edge stays with its old value, even
   *    one whose end was removed;
   *  - the internal edges of the changed sector and of every neighbour are
   *    added, and the external edges both ways across each shared boundary;
   *    an added edge already present keeps its old value.
   */
  ghost predicate Updated(n0: map<NodeKey, PortalNode>, e0: map<EdgeKey, PortalEdge>,
                          nodes: map<NodeKey, PortalNode>, edges: map<EdgeKey, PortalEdge>,
                          portals: map<SectorID, Portals>, scaled: map<SectorID, CostField>, sees: Visibility,
                          changed: SectorID, ns: seq<(Ordinal, SectorID)>)
    requires changed in portals && changed in scaled
  {
    (forall k :: k in nodes <==>
      (k in n0 && k.sector != changed && !RetiredBefore(n0, portals, ns, |ns|, k)) ||
      FacingBefore(portals, ns, |ns|, k) || (k.sector == changed && k.cell in EveryPortal(portals[changed]))) &&
    (forall k :: k in nodes ==> nodes[k] == if k in n0 && k.sector != changed then n0[k] else NodeAt(scaled, k)) &&
    (forall k :: k in edges <==>
      (k in e0 && !TargetedBefore(n0, e0, ns, |ns|, k)) || PairOfBefore(portals, scaled, sees, ns, |ns|, k) ||
      IsPairKey(changed, scaled[changed], sees, EveryPortal(portals[changed]), k) ||
      IsExternalKey(portals, changed, portals[changed], ns, k) || BackKey(portals, changed, ns, |ns|, k)) &&
    (forall k :: k in edges ==> edges[k] == if k in e0 && !TargetedBefore(n0, e0, ns, |ns|, k) then e0[k] else EdgeAt(scaled, sees, k))
  }

  /** The three steps of `update_graph` give the node set `Updated` describes. */
  lemma UpdatedNodesComposed(n0: map<NodeKey, PortalNode>, n1: map<NodeKey, PortalNode>, n2: map<NodeKey, PortalNode>,
                             portals: map<SectorID, Portals>, scaled: map<SectorID, CostField>, changed: SectorID, ns: seq<(Ordinal, SectorID)>)
    requires changed in portals && forall t :: 0 <= t < |ns| ==> ns[t].1 != changed
    requires forall k :: k in n1 <==> (k in n0 && !RetiredBefore(n0, portals, ns, |ns|, k)) || FacingBefore(portals, ns, |ns|, k)
    requires forall k :: k in n1 ==> n1[k] == if k in n0 then n0[k] else NodeAt(scaled, k)
    requires forall k :: k in n2 <==> (k in n1 && k.sector != changed) || (k.sector == changed && k.cell in EveryPortal(portals[changed]))
    requires forall k :: k in n2 ==> n2[k] == if k.sector != changed then n1[k] else NodeAt(scaled, k)
    ensures forall k :: k in n2 <==>
      (k in n0 && k.sector != changed && !RetiredBefore(n0, portals, ns, |ns|, k)) ||
      FacingBefore(portals, ns, |ns|, k) || (k.sector == changed && k.cell in EveryPortal(portals[changed]))
    ensures forall k :: k in n2 ==> n2[k] == if k in n0 && k.sector != changed then n0[k] else NodeAt(scaled, k)
  {
    forall k | FacingBefore(portals, ns, |ns|, k) ensures k.sector != changed {
      var t :| 0 <= t < |ns| && t < |ns| && FacingNode(portals, ns[t], k);
    }
  }

  /** The three steps of `update_graph` give the edge set `Updated` describes. */
  lemma UpdatedEdgesComposed(n0: map<NodeKey, PortalNode>, e0: map<EdgeKey, PortalEdge>,
                             e1: map<EdgeKey, PortalEdge>, e2: map<EdgeKey, PortalEdge>, e3: map<EdgeKey, PortalEdge>,
                             portals: map<SectorID, Portals>, scaled: map<SectorID, CostField>, sees: Visibility,
                             changed: SectorID, ns: seq<(Ordinal, SectorID)>)
    requires changed in portals && changed in scaled && forall t :: 0 <= t < |ns| ==> ns[t].1 != changed
    requires forall k :: k in e1 <==> (k in e0 && !TargetedBefore(n0, e0, ns, |ns|, k)) || PairOfBefore(portals, scaled, sees, ns, |ns|, k)
    requires forall k :: k in e1 ==>
      if k in e0 && !TargetedBefore(n0, e0, ns, |ns|, k) then e1[k] == e0[k]
      else k.source.sector in scaled && e1[k] == InternalEdgeOf(scaled[k.source.sector], sees, k)
    requires forall k :: k in e2 <==> k in e1 || IsPairKey(changed, scaled[changed], sees, EveryPortal(portals[changed]), k)
    requires forall k :: k in e2 ==> e2[k] == if k in e1 then e1[k] else InternalEdgeOf(scaled[changed], sees, k)
    requires LinkProgress(e2, e3, portals, scaled, changed, ns, |ns|, |ns|)
    ensures forall k :: k in e3 <==>
      (k in e0 && !TargetedBefore(n0, e0, ns, |ns|, k)) || PairOfBefore(portals, scaled, sees, ns, |ns|, k) ||
      IsPairKey(changed, scaled[changed], sees, EveryPortal(portals[changed]), k) ||
      IsExternalKey(portals, changed, portals[changed], ns, k) || BackKey(portals, changed, ns, |ns|, k)
    ensures forall k :: k in e3 ==> e3[k] == if k in e0 && !TargetedBefore(n0, e0, ns, |ns|, k) then e0[k] else EdgeAt(scaled, sees, k)
  {
    forall k ensures OutKey(portals, changed, ns, |ns|, k) <==> IsExternalKey(portals, changed, portals[changed], ns, k) {
    }
    forall k | k in e3
      ensures e3[k] == if k in e0 && !TargetedBefore(n0, e0, ns, |ns|, k) then e0[k] else EdgeAt(scaled, sees, k)
    {
      if k !in e2 {
        if OutKey(portals, changed, ns, |ns|, k) {
          var u, i :| 0 <= u < |ns| && u < |ns| && ExternalAt(portals, changed, portals[changed], ns[u], i, k);
        } else {
          var u, i :| 0 <= u < |ns| && u < |ns| && ns[u].1 in portals &&
            ExternalAt(portals, ns[u].1, portals[ns[u].1], (Inverse(ns[u].0), changed), i, k);
        }
      } else if k !in e1 {
        PairKeyEnds(changed, scaled[changed], sees, EveryPortal(portals[changed]), k);
      } else if !(k in e0 && !TargetedBefore(n0, e0, ns, |ns|, k)) {
        var t :| 0 <= t < |ns| && t < |ns| && NeighbourPair(portals, scaled, sees, ns[t], k);
        PairKeyEnds(ns[t].1, scaled[ns[t].1], sees, EveryPortal(portals[ns[t].1]), k);
      }
    }
  }

  /** The removals of `RemoveBoundary`, the insertions of `InsertCells` and the internal pass give `SideReplaced`. */
  lemma SideComposed(copyNodes: map<NodeKey, PortalNode>, copyEdges: map<EdgeKey, PortalEdge>,
                     n0: map<NodeKey, PortalNode>, e0: map<EdgeKey, PortalEdge>,
                     n1: map<NodeKey, PortalNode>, e1: map<EdgeKey, PortalEdge>,
                     n2: map<NodeKey, PortalNode>, e2: map<EdgeKey, PortalEdge>,
                     portals: map<SectorID, Portals>, scaled: map<SectorID, CostField>, sees: Visibility, nb: (Ordinal, SectorID))
    requires nb.1 in portals && nb.1 in scaled
    requires forall k :: k in n1 <==> k in n0 && !Retired(copyNodes, portals, nb, k)
    requires forall k :: k in n1 ==> n1[k] == n0[k]
    requires forall k :: k in e1 <==> k in e0 && !Targeted(copyNodes, copyEdges, nb, k)
    requires forall k :: k in e1 ==> e1[k] == e0[k]
    requires forall k :: k in n2 <==> k in n1 || (k.sector == nb.1 && k.cell in FacingCells(portals, nb))
    requires forall k :: k in n2 ==> n2[k] == if k in n1 then n1[k] else NodeAt(scaled, k)
    requires forall k :: k in e2 <==> k in e1 || IsPairKey(nb.1, scaled[nb.1], sees, EveryPortal(portals[nb.1]), k)
    requires forall k :: k in e2 ==> e2[k] == if k in e1 then e1[k] else InternalEdgeOf(scaled[nb.1], sees, k)
    ensures SideReplaced(copyNodes, copyEdges, n0, e0, n2, e2, portals, scaled, sees, nb)
  {
  }

  // ---------------------------------------------------------------------
  // Set scans

  /** The keys of `es` that start or end at `node`, in some order: the collecting loop of `remove_node`. */
  method TouchingEdges(es: map<EdgeKey, PortalEdge>, node: PortalNode) returns (ks: seq<EdgeKey>)
    requires EdgeSet(es)
    ensures forall k :: k in ks <==> k in es && (k.source == node.Key() || k.target == node.Key())
  {
    ks := [];
    var rest := es.Keys;
    while rest != {}
      invariant rest <= es.Keys
      invariant forall k :: k in ks <==> k in es && k !in rest && (k.source == node.Key() || k.target == node.Key())
      decreases rest
    {
      var k :| k in rest;
      if es[k].ContainsSource(node) || es[k].ContainsTarget(node) {
        ks := ks + [k];
      }
      rest := rest - {k};
    }
  }

  /** `get_nodes_containg_sector`: the keys of the nodes of one sector, in some order. */
  method NodesContainingSector(ns: map<NodeKey, PortalNode>, sector: SectorID) returns (ks: seq<NodeKey>)
    ensures forall k :: k in ks <==> k in ns && k.sector == sector
  {
    ks := [];
    var rest := ns.Keys;
    while rest != {}
      invariant rest <= ns.Keys
      invariant forall k :: k in ks <==> k in ns && k !in rest && k.sector == sector
      decreases rest
    {
      var k :| k in rest;
      if k.sector == sector {
        ks := ks + [k];
      }
      rest := rest - {k};
    }
  }

  /**
   * The node scan of `replace_old_neighbour_nodes` for one neighbour: the
   * keys of its nodes on the boundary `side`, and of those among them whose
   * cell is no longer in the side's portal list `cells`.
   */
  method BoundaryNodes(ns: map<NodeKey, PortalNode>, sector: SectorID, side: Ordinal, cells: seq<FieldCell>)
    returns (boundary: seq<NodeKey>, retired: seq<NodeKey>)
    requires IsOrthogonal(side)
    ensures forall k :: k in boundary <==> k in ns && k.sector == sector && OnSide(side, k.cell)
    ensures forall k :: k in retired <==> k in ns && k.sector == sector && OnSide(side, k.cell) && k.cell !in cells
  {
    boundary, retired := [], [];
    var rest := ns.Keys;
    while rest != {}
      invariant rest <= ns.Keys
      invariant forall k :: k in boundary <==> k in ns && k !in rest && k.sector == sector && OnSide(side, k.cell)
      invariant forall k :: k in retired <==> k in ns && k !in rest && k.sector == sector && OnSide(side, k.cell) && k.cell !in cells
      decreases rest
    {
      var k :| k in rest;
      if k.sector == sector {
        var onBoundary := match side
          case North => k.cell.row == 0
          case East => k.cell.column == FIELD_RESOLUTION - 1
          case South => k.cell.row == FIELD_RESOLUTION - 1
          case West => k.cell.column == 0;
        if onBoundary {
          boundary := boundary + [k];
          if k.cell !in cells {
            retired := retired + [k];
          }
        }
      }
      rest := rest - {k};
    }
  }

  // ---------------------------------------------------------------------
  // The graph

  /** `PortalGraph`: the node set and the edge set, changed in place. */
  class PortalGraph {
    var nodes: map<NodeKey, PortalNode>
    var edges: map<EdgeKey, PortalEdge>

    /** Every stored node and edge sits under the key its ordering compares. */
    ghost predicate Valid()
      reads this
    {
      NodeSet(nodes) && EdgeSet(edges)
    }

    /** `PortalGraph::default`: no nodes and no edges. */
    constructor ()
      ensures Valid() && nodes == map[] && edges == map[]
    {
      nodes := map[];
      edges := map[];
    }

    /** `get_node`: the stored node with the sector and cell given, if any. */
    method GetNode(sector: SectorID, cell: FieldCell) returns (r: Option<PortalNode>)
      requires Valid()
      ensures r.Some? <==> NodeKey(sector, cell) in nodes
      ensures r.Some? ==> r.value == nodes[NodeKey(sector, cell)] && r.value.sector == sector && r.value.cell == cell
    {
      var rest := nodes.Keys;
      while rest != {}
        invariant rest <= nodes.Keys
        invariant NodeKey(sector, cell) in nodes ==> NodeKey(sector, cell) in rest
        decreases rest
      {
        var k :| k in rest;
        if nodes[k].sector == sector && nodes[k].cell == cell {
          return Some(nodes[k]);
        }
        rest := rest - {k};
      }
      return None;
    }

    /** `insert_portal_node`: the node is added unless one with its sector and cell is present, which is kept. */
    method InsertPortalNode(node: PortalNode)
      requires Valid()
      modifies this
      ensures Valid() && nodes == WithNode(old(nodes), node) && edges == old(edges)
    {
      if node.Key() in nodes {
      } else {
        nodes := nodes[node.Key() := node];
      }
    }

    /** `add_edge`: the edge is added unless one with its two ends is present, which is kept. */
    method AddEdge(edge: PortalEdge)
      requires Valid()
      modifies this
      ensures Valid() && edges == WithEdge(old(edges), edge) && nodes == old(nodes)
    {
      edges := WithEdge(edges, edge);
    }

    /** `remove_edge`: drops the edge with the ends of `edge`, whatever its direction, if any. */
    method RemoveEdge(edge: PortalEdge)
      requires Valid()
      modifies this
      ensures Valid() && edges == old(edges) - {edge.Key()} && nodes == old(nodes)
    {
      edges := edges - {edge.Key()};
    }

    /** The removal loop of `remove_node` over the collected edges. */
    method RemoveEdges(ks: seq<EdgeKey>)
      requires Valid() && forall i :: 0 <= i < |ks| ==> ks[i] in edges
      modifies this
      ensures Valid() && nodes == old(nodes)
      ensures edges == map k | k in old(edges) && k !in ks :: old(edges)[k]
    {
      var before := edges;
      for i := 0 to |ks|
        invariant Valid() && nodes == old(nodes)
        invariant edges == map k | k in before && k !in ks[..i] :: before[k]
      {
        RemoveEdge(before[ks[i]]);
        assert ks[..i + 1] == ks[..i] + [ks[i]];
      }
      assert ks[..|ks|] == ks;
    }

    /**
     * `remove_node`: collects the edges that start or end at the node,
     * removes them, then removes the node; no edge is left touching it and
     * every other node and edge stays.
     */
    method RemoveNode(node: PortalNode)
      requires Valid()
      modifies this
      ensures Valid() && nodes == old(nodes) - {node.Key()}
      ensures edges == Detached(old(edges), node.Key())
    {
      var touching := TouchingEdges(edges, node);
      RemoveEdges(touching);
      nodes := nodes - {node.Key()};
    }

    /** The removal loop of `replace_changed_sector_nodes` and `replace_old_neighbour_nodes` over node keys. */
    method RemoveNodeKeys(ks: seq<NodeKey>)
      requires Valid()
      modifies this
      ensures Valid() && edges == old(edges)
      ensures nodes == map k | k in old(nodes) && k !in ks :: old(nodes)[k]
    {
      for i := 0 to |ks|
        invariant Valid() && edges == old(edges)
        invariant nodes == map k | k in old(nodes) && k !in ks[..i] :: old(nodes)[k]
      {
        nodes := nodes - {ks[i]};
        assert ks[..i + 1] == ks[..i] + [ks[i]];
      }
      assert ks[..|ks|] == ks;
    }

    /**
     * The inner loop of `insert_all_portal_nodes`, `replace_changed_sector_nodes`
     * and `replace_old_neighbour_nodes`: a node for each of `cells` in sector
     * `id`, weighted by the cell's scaled cost. The cost field is looked up
     * only once there is a cell.
     */
    method InsertCells(scaled: map<SectorID, CostField>, id: SectorID, cells: seq<FieldCell>)
      requires Valid() && (id in scaled || cells == [])
      modifies this
      ensures Valid() && edges == old(edges)
      ensures forall k :: k in nodes <==> k in old(nodes) || (k.sector == id && k.cell in cells)
      ensures forall k :: k in nodes ==> nodes[k] == if k in old(nodes) then old(nodes)[k] else NodeAt(scaled, k)
    {
      for c := 0 to |cells|
        invariant Valid() && edges == old(edges)
        invariant forall k :: k in nodes <==> k in old(nodes) || (k.sector == id && k.cell in cells[..c])
        invariant forall k :: k in nodes ==> nodes[k] == if k in old(nodes) then old(nodes)[k] else NodeAt(scaled, k)
      {
        var weight := GetCost(scaled[id], cells[c]) as int;
        assert cells[..c + 1] == cells[..c] + [cells[c]];
        InsertPortalNode(PortalNode(id, cells[c], weight));
      }
      assert cells[..|cells|] == cells;
    }

    /** `insert_all_portal_nodes`: a node for every portal of every sector of `portals`. */
    method InsertAllPortalNodes(portals: map<SectorID, Portals>, scaled: map<SectorID, CostField>)
      requires Valid() && forall s :: s in portals ==> s in scaled || EveryPortal(portals[s]) == []
      modifies this
      ensures Valid() && edges == old(edges)
      ensures forall k :: k in nodes <==> k in old(nodes) || IsPortalNode(portals, k)
      ensures forall k :: k in nodes ==> nodes[k] == if k in old(nodes) then old(nodes)[k] else NodeAt(scaled, k)
    {
      var rest := portals.Keys;
      while rest != {}
        invariant rest <= portals.Keys
        invariant Valid() && edges == old(edges)
        invariant forall k :: k in nodes <==> k in old(nodes) || (IsPortalNode(portals, k) && k.sector !in rest)
        invariant forall k :: k in nodes ==> nodes[k] == if k in old(nodes) then old(nodes)[k] else NodeAt(scaled, k)
        decreases rest
      {
        var s :| s in rest;
        InsertCells(scaled, s, EveryPortal(portals[s]));
        rest := rest - {s};
      }
    }

    /** One row of `build_sector_internal_edges`: the edges from entry `i` of the portal list. */
    method ConnectFrom(id: SectorID, field: CostField, sees: Visibility, cells: seq<FieldCell>, i: nat, ghost before: map<EdgeKey, PortalEdge>)
      requires i < |cells|
      requires Valid() && InternalProgress(before, edges, id, field, sees, cells, i, 0)
      modifies this
      ensures Valid() && nodes == old(nodes)
      ensures InternalProgress(before, edges, id, field, sees, cells, i + 1, 0)
    {
      for j := 0 to |cells|
        invariant Valid() && nodes == old(nodes)
        invariant InternalProgress(before, edges, id, field, sees, cells, i, j)
      {
        InternalStep(before, edges, id, field, sees, cells, i, j);
        if i != j {
          var visible := sees(field, cells[i], cells[j]);
          if visible.0 {
            var sourceNode := PortalNode(id, cells[i], GetCost(field, cells[i]) as int);
            var targetNode := PortalNode(id, cells[j], GetCost(field, cells[j]) as int);
            AddEdge(PortalEdge(sourceNode, targetNode, visible.1, Graph.Internal));
          }
        }
      }
      InternalNextRow(before, edges, id, field, sees, cells, i);
    }

    /**
     * `build_sector_internal_edges`: an edge from each entry of the portal
     * list to every other entry it sees, with the visibility test's step
     * count as distance.
     */
    method BuildSectorInternalEdges(id: SectorID, field: CostField, sees: Visibility, cells: seq<FieldCell>)
      requires Valid()
      modifies this
      ensures Valid() && nodes == old(nodes)
      ensures forall k :: k in edges <==> k in old(edges) || IsPairKey(id, field, sees, cells, k)
      ensures forall k :: k in edges ==> edges[k] == if k in old(edges) then old(edges)[k] else InternalEdgeOf(field, sees, k)
    {
      for i := 0 to |cells|
        invariant Valid() && nodes == old(nodes)
        invariant InternalProgress(old(edges), edges, id, field, sees, cells, i, 0)
      {
        ConnectFrom(id, field, sees, cells, i, old(edges));
      }
      forall k ensures PairBefore(id, field, sees, cells, k, |cells|, 0) <==> IsPairKey(id, field, sees, cells, k) {
        if IsPairKey(id, field, sees, cells, k) {
          var a, b :| InternalPair(id, field, sees, cells, a, b, k);
        }
      }
    }

    /** `build_all_internal_sector_edges`: the internal edges of every sector of `portals`, over its scaled costs. */
    method BuildAllInternalSectorEdges(portals: map<SectorID, Portals>, scaled: map<SectorID, CostField>, sees: Visibility)
      requires Valid() && forall s :: s in portals ==> s in scaled
      modifies this
      ensures Valid() && nodes == old(nodes)
      ensures forall k :: k in edges <==> k in old(edges) || IsInternalEdge(portals, scaled, sees, k)
      ensures forall k :: k in old(edges) ==> edges[k] == old(edges)[k]
      ensures forall k :: k in edges && k !in old(edges) ==> k.source.sector in scaled && edges[k] == InternalEdgeOf(scaled[k.source.sector], sees, k)
    {
      var rest := portals.Keys;
      while rest != {}
        invariant rest <= portals.Keys
        invariant Valid() && nodes == old(nodes)
        invariant forall k :: k in edges <==> k in old(edges) || (IsInternalEdge(portals, scaled, sees, k) && k.source.sector !in rest)
        invariant forall k :: k in edges ==> k in old(edges) || k.source.sector in scaled
        invariant forall k :: k in edges ==> edges[k] == if k in old(edges) then old(edges)[k] else InternalEdgeOf(scaled[k.source.sector], sees, k)
        decreases rest
      {
        var s :| s in rest;
        ghost var before := edges;
        BuildSectorInternalEdges(s, scaled[s], sees, EveryPortal(portals[s]));
        forall k | k in edges && k !in before
          ensures k.source.sector == s
        {
          PairKeyEnds(s, scaled[s], sees, EveryPortal(portals[s]), k);
        }
        rest := rest - {s};
      }
    }

    /** The edges across one boundary in `build_sector_external_edges`: towards neighbour `t`. */
    method ConnectAcross(portals: map<SectorID, Portals>, scaled: map<SectorID, CostField>, id: SectorID, p: Portals,
                         neighbours: seq<(Ordinal, SectorID)>, t: nat, ghost before: map<EdgeKey, PortalEdge>)
      requires t < |neighbours| && Graph.ExternalReady(portals, scaled, id, p, neighbours)
      requires Valid() && ExternalProgress(before, edges, portals, scaled, id, p, neighbours, t, 0)
      modifies this
      ensures Valid() && nodes == old(nodes)
      ensures ExternalProgress(before, edges, portals, scaled, id, p, neighbours, t + 1, 0)
    {
      var (side, neighbour) := neighbours[t];
      var sourceField, targetField := scaled[id], scaled[neighbour];
      var boundary := Graph.SideCells(p, side);
      var neighbourBoundary := Graph.SideCells(portals[neighbour], Inverse(side));
      for i := 0 to |boundary|
        invariant Valid() && nodes == old(nodes)
        invariant ExternalProgress(before, edges, portals, scaled, id, p, neighbours, t, i)
      {
        var sourceNode := PortalNode(id, boundary[i], GetCost(sourceField, boundary[i]) as int);
        var targetNode := PortalNode(neighbour, neighbourBoundary[i], GetCost(targetField, neighbourBoundary[i]) as int);
        var edge := PortalEdge(sourceNode, targetNode, SECTOR_BOUNDARY_PORTAL_PORTAL_DISTANCE, Graph.External);
        assert ExternalAt(portals, id, p, neighbours[t], i, edge.Key());
        assert edge == ExternalEdgeOf(scaled, edge.Key());
        ExternalStep(before, edges, portals, scaled, id, p, neighbours, t, i, edge.Key());
        AddEdge(edge);
      }
      ExternalNextNeighbour(before, edges, portals, scaled, id, p, neighbours, t);
    }

    /**
     * `build_sector_external_edges`: for each listed neighbour, an edge from
     * the `i`-th portal of the sector on the side facing it to the `i`-th
     * portal of the neighbour on the inverse side, with distance 5.
     */
    method BuildSectorExternalEdges(portals: map<SectorID, Portals>, scaled: map<SectorID, CostField>, id: SectorID, p: Portals,
                                    neighbours: seq<(Ordinal, SectorID)>)
      requires Valid() && Graph.ExternalReady(portals, scaled, id, p, neighbours)
      modifies this
      ensures Valid() && nodes == old(nodes)
      ensures forall k :: k in edges <==> k in old(edges) || IsExternalKey(portals, id, p, neighbours, k)
      ensures forall k :: k in edges ==> edges[k] == if k in old(edges) then old(edges)[k] else ExternalEdgeOf(scaled, k)
    {
      for t := 0 to |neighbours|
        invariant Valid() && nodes == old(nodes)
        invariant ExternalProgress(old(edges), edges, portals, scaled, id, p, neighbours, t, 0)
      {
        ConnectAcross(portals, scaled, id, p, neighbours, t, old(edges));
      }
    }

    /** `build_all_external_sector_edges`: the external edges of every sector of `portals` into its neighbours. */
    method BuildAllExternalSectorEdges(portals: map<SectorID, Portals>, scaled: map<SectorID, CostField>, dims: MapDimensions)
      requires Valid() && dims.sectorResolution > 0 && dims.Columns() > 0 && dims.Rows() > 0
      requires forall s :: s in portals ==> Graph.ExternalReady(portals, scaled, s, portals[s], Graph.Neighbours(dims, s))
      modifies this
      ensures Valid() && nodes == old(nodes)
      ensures forall k :: k in edges <==> k in old(edges) || IsExternalEdge(portals, dims, k)
      ensures forall k :: k in edges ==> edges[k] == if k in old(edges) then old(edges)[k] else ExternalEdgeOf(scaled, k)
    {
      var rest := portals.Keys;
      while rest != {}
        invariant rest <= portals.Keys
        invariant Valid() && nodes == old(nodes)
        invariant forall k :: k in edges <==> k in old(edges) || (IsExternalEdge(portals, dims, k) && k.source.sector !in rest)
        invariant forall k :: k in edges ==> edges[k] == if k in old(edges) then old(edges)[k] else ExternalEdgeOf(scaled, k)
        decreases rest
      {
        var s :| s in rest;
        ghost var before := edges;
        BuildSectorExternalEdges(portals, scaled, s, portals[s], Graph.Neighbours(dims, s));
        forall k | k in edges && k !in before
          ensures k.source.sector == s
        {
          var ns := Graph.Neighbours(dims, s);
          var t, i :| 0 <= t < |ns| && ExternalAt(portals, s, portals[s], ns[t], i, k);
        }
        rest := rest - {s};
      }
    }

    /** The three building passes of `new` and `reset_graph`, starting from an empty graph. */
    method BuildAll(portals: map<SectorID, Portals>, scaled: map<SectorID, CostField>, dims: MapDimensions, sees: Visibility)
      requires Valid() && nodes == map[] && edges == map[] && Graph.Buildable(portals, scaled, dims)
      modifies this
      ensures Valid() && Built(portals, scaled, dims, sees, nodes, edges)
    {
      InsertAllPortalNodes(portals, scaled);
      BuildAllInternalSectorEdges(portals, scaled, sees);
      ghost var internal := edges;
      forall k | k in internal
        ensures k.source.sector == k.target.sector && internal[k] == EdgeAt(scaled, sees, k)
      {
        PairKeyEnds(k.source.sector, scaled[k.source.sector], sees, EveryPortal(portals[k.source.sector]), k);
      }
      BuildAllExternalSectorEdges(portals, scaled, dims);
      forall k | k in edges && k !in internal
        ensures edges[k] == EdgeAt(scaled, sees, k)
      {
        ExternalEdgeCrosses(portals, dims, k);
      }
    }

    /** `reset_graph`: the graph cleared and built again, as `new` builds it. */
    method ResetGraph(portals: map<SectorID, Portals>, scaled: map<SectorID, CostField>, dims: MapDimensions, sees: Visibility)
      requires Valid() && Graph.Buildable(portals, scaled, dims)
      modifies this
      ensures Valid() && Built(portals, scaled, dims, sees, nodes, edges)
    {
      nodes := map[];
      edges := map[];
      BuildAll(portals, scaled, dims, sees);
    }

    /** The inner loop of `replace_old_neighbour_nodes` for one boundary node: every edge of `copy` ending at `node` is removed. */
    method RemoveEdgesTargeting(copy: map<EdgeKey, PortalEdge>, node: PortalNode)
      requires Valid() && EdgeSet(copy)
      modifies this
      ensures Valid() && nodes == old(nodes)
      ensures edges == map k | k in old(edges) && !(k in copy && k.target == node.Key()) :: old(edges)[k]
    {
      var rest := copy.Keys;
      while rest != {}
        invariant rest <= copy.Keys
        invariant Valid() && nodes == old(nodes)
        invariant edges == map k | k in old(edges) && !(k in copy && k !in rest && k.target == node.Key()) :: old(edges)[k]
        decreases rest
      {
        var k :| k in rest;
        if copy[k].ContainsTarget(node) {
          RemoveEdge(copy[k]);
        }
        rest := rest - {k};
      }
    }

    /** The edge removal of `replace_old_neighbour_nodes` for one neighbour: every edge of `copyEdges` ending at one of `boundary`. */
    method RemoveEdgesTargetingAll(copyNodes: map<NodeKey, PortalNode>, copyEdges: map<EdgeKey, PortalEdge>, boundary: seq<NodeKey>)
      requires Valid() && NodeSet(copyNodes) && EdgeSet(copyEdges) && forall i :: 0 <= i < |boundary| ==> boundary[i] in copyNodes
      modifies this
      ensures Valid() && nodes == old(nodes)
      ensures edges == map k | k in old(edges) && !(k in copyEdges && k.target in boundary) :: old(edges)[k]
    {
      for i := 0 to |boundary|
        invariant Valid() && nodes == old(nodes)
        invariant edges == map k | k in old(edges) && !(k in copyEdges && k.target in boundary[..i]) :: old(edges)[k]
      {
        RemoveEdgesTargeting(copyEdges, copyNodes[boundary[i]]);
        assert boundary[..i + 1] == boundary[..i] + [boundary[i]];
      }
      assert boundary[..|boundary|] == boundary;
    }

    /**
     * The removals of `replace_old_neighbour_nodes` for one neighbour `nb`,
     * judged against the copy of the graph taken before the first neighbour:
     * the edges of the copy that end at the neighbour's nodes on its boundary
     * with the changed sector, then those boundary nodes whose cells are no
     * longer portals on that side.
     */
    method RemoveBoundary(copyNodes: map<NodeKey, PortalNode>, copyEdges: map<EdgeKey, PortalEdge>,
                          portals: map<SectorID, Portals>, nb: (Ordinal, SectorID))
      requires Valid() && NodeSet(copyNodes) && EdgeSet(copyEdges)
      requires IsOrthogonal(nb.0) && nb.1 in portals
      modifies this
      ensures Valid()
      ensures nodes == map k | k in old(nodes) && !Retired(copyNodes, portals, nb, k) :: old(nodes)[k]
      ensures edges == map k | k in old(edges) && !Targeted(copyNodes, copyEdges, nb, k) :: old(edges)[k]
    {
      InverseIsInvolution(nb.0);
      var boundary, retired := BoundaryNodes(copyNodes, nb.1, Inverse(nb.0), FacingCells(portals, nb));
      RemoveEdgesTargetingAll(copyNodes, copyEdges, boundary);
      RemoveNodeKeys(retired);
    }

    /**
     * One neighbour `nb` of `replace_old_neighbour_nodes`: the removals of
     * `RemoveBoundary`, then a node inserted for every portal on the side
     * facing the changed sector, and the neighbour's internal edges built
     * again.
     */
    method ReplaceNeighbourSide(copyNodes: map<NodeKey, PortalNode>, copyEdges: map<EdgeKey, PortalEdge>,
                                portals: map<SectorID, Portals>, scaled: map<SectorID, CostField>, sees: Visibility, nb: (Ordinal, SectorID))
      requires Valid() && NodeSet(copyNodes) && EdgeSet(copyEdges)
      requires IsOrthogonal(nb.0) && nb.1 in portals && nb.1 in scaled
      modifies this
      ensures Valid() && SideReplaced(copyNodes, copyEdges, old(nodes), old(edges), nodes, edges, portals, scaled, sees, nb)
    {
      RemoveBoundary(copyNodes, copyEdges, portals, nb);
      ghost var n1, e1 := nodes, edges;
      InsertCells(scaled, nb.1, FacingCells(portals, nb));
      ghost var n2 := nodes;
      BuildSectorInternalEdges(nb.1, scaled[nb.1], sees, EveryPortal(portals[nb.1]));
      SideComposed(copyNodes, copyEdges, old(nodes), old(edges), n1, e1, nodes, edges, portals, scaled, sees, nb);
    }

    /**
     * `replace_old_neighbour_nodes`: `ReplaceNeighbourSide` for each listed
     * neighbour in turn, each judged against the graph as it was before the
     * first. The neighbours are different sectors, as every sector's
     * neighbours on the map are.
     */
    method ReplaceOldNeighbourNodes(ns: seq<(Ordinal, SectorID)>, portals: map<SectorID, Portals>, scaled: map<SectorID, CostField>, sees: Visibility)
      requires Valid() && DistinctSectors(ns)
      requires forall t :: 0 <= t < |ns| ==> IsOrthogonal(ns[t].0) && ns[t].1 in portals && ns[t].1 in scaled
      modifies this
      ensures Valid() && OldReplaced(old(nodes), old(edges), nodes, edges, portals, scaled, sees, ns, |ns|)
    {
      var copyNodes, copyEdges := nodes, edges;
      for t := 0 to |ns|
        invariant Valid() && OldReplaced(copyNodes, copyEdges, nodes, edges, portals, scaled, sees, ns, t)
      {
        ghost var n1, e1 := nodes, edges;
        ReplaceNeighbourSide(copyNodes, copyEdges, portals, scaled, sees, ns[t]);
        OldNodesStep(copyNodes, n1, nodes, portals, scaled, ns, t);
        OldEdgesStep(copyNodes, copyEdges, e1, edges, portals, scaled, sees, ns, t);
      }
    }

    /**
     * `replace_changed_sector_nodes`: every node of the changed sector is
     * removed, but no edge; a node is inserted for each of its portals, and
     * its internal edges are built again.
     */
    method ReplaceChangedSectorNodes(changed: SectorID, portals: map<SectorID, Portals>, scaled: map<SectorID, CostField>, sees: Visibility)
      requires Valid() && changed in portals && changed in scaled
      modifies this
      ensures Valid() && ChangedReplaced(old(nodes), old(edges), nodes, edges, portals, scaled, sees, changed)
    {
      var stale := NodesContainingSector(nodes, changed);
      RemoveNodeKeys(stale);
      InsertCells(scaled, changed, EveryPortal(portals[changed]));
      BuildSectorInternalEdges(changed, scaled[changed], sees, EveryPortal(portals[changed]));
    }

    /** One neighbour of the edge loop of `update_graph`: the edges from the changed sector across the side facing it, then those back. */
    method LinkNeighbour(changed: SectorID, portals: map<SectorID, Portals>, scaled: map<SectorID, CostField>, dims: MapDimensions,
                         t: nat, ghost before: map<EdgeKey, PortalEdge>)
      requires Valid() && Graph.UpdateReady(portals, scaled, dims, changed) && t < |Graph.Neighbours(dims, changed)|
      requires LinkProgress(before, edges, portals, scaled, changed, Graph.Neighbours(dims, changed), t, t)
      modifies this
      ensures Valid() && nodes == old(nodes)
      ensures LinkProgress(before, edges, portals, scaled, changed, Graph.Neighbours(dims, changed), t + 1, t + 1)
    {
      var ns := Graph.Neighbours(dims, changed);
      ghost var e1 := edges;
      assert [ns[t]][0] == ns[t];
      BuildSectorExternalEdges(portals, scaled, changed, portals[changed], [ns[t]]);
      LinkOutStep(before, e1, edges, portals, scaled, changed, ns, t);
      ghost var e2 := edges;
      BuildSectorExternalEdges(portals, scaled, ns[t].1, portals[ns[t].1], [(Inverse(ns[t].0), changed)]);
      LinkBackStep(before, e2, edges, portals, scaled, changed, ns, t);
    }

    /**
     * `update_graph`: after the cost field and portals of sector `changed`
     * were updated, `replace_old_neighbour_nodes` over its neighbours, then
     * `replace_changed_sector_nodes`, then the external edges both ways
     * across each boundary the changed sector shares with a neighbour.
     */
    method UpdateGraph(changed: SectorID, portals: map<SectorID, Portals>, scaled: map<SectorID, CostField>, dims: MapDimensions, sees: Visibility)
      requires Valid() && Graph.UpdateReady(portals, scaled, dims, changed)
      modifies this
      ensures Valid() && Updated(old(nodes), old(edges), nodes, edges, portals, scaled, sees, changed, Graph.Neighbours(dims, changed))
    {
      var ns := Graph.Neighbours(dims, changed);
      Graph.NeighboursDistinct(dims, changed);
      ReplaceOldNeighbourNodes(ns, portals, scaled, sees);
      ghost var n1, e1 := nodes, edges;
      ReplaceChangedSectorNodes(changed, portals, scaled, sees);
      ghost var n2, e2 := nodes, edges;
      for t := 0 to |ns|
        invariant Valid() && nodes == n2
        invariant LinkProgress(e2, edges, portals, scaled, changed, ns, t, t)
      {
        LinkNeighbour(changed, portals, scaled, dims, t, e2);
      }
      UpdatedNodesComposed(old(nodes), n1, nodes, portals, scaled, changed, ns);
      UpdatedEdgesComposed(old(nodes), old(edges), e1, e2, edges, portals, scaled, sees, changed, ns);
    }
  }

  /** `PortalGraph::new`: the nodes, internal edges and external edges of every sector. */
  method NewGraph(portals: map<SectorID, Portals>, scaled: map<SectorID, CostField>, dims: MapDimensions, sees: Visibility)
    returns (graph: PortalGraph)
    requires Graph.Buildable(portals, scaled, dims)
    ensures fresh(graph) && graph.Valid() && Built(portals, scaled, dims, sees, graph.nodes, graph.edges)
  {
    graph := new PortalGraph();
    graph.BuildAll(portals, scaled, dims, sees);
  }

  /**
   * The graph `new` builds is closed and consistent: both ends of every
   * edge are nodes of the graph, stored with the same weights; an edge
   * within a sector is internal and between two portals that see each
   * other, an edge across a boundary is external with distance 5.
   */
  lemma BuiltIsClosed(portals: map<SectorID, Portals>, scaled: map<SectorID, CostField>, dims: MapDimensions, sees: Visibility,
                      nodes: map<NodeKey, PortalNode>, edges: map<EdgeKey, PortalEdge>)
    requires Graph.Buildable(portals, scaled, dims) && Built(portals, scaled, dims, sees, nodes, edges)
    ensures forall k :: k in edges ==> k.source in nodes && k.target in nodes
    ensures forall k :: k in edges ==> edges[k].source == nodes[k.source] && edges[k].target == nodes[k.target]
    ensures forall k :: k in edges && k.source.sector == k.target.sector ==>
      edges[k].direction == Graph.Internal && sees(scaled[k.source.sector], k.source.cell, k.target.cell).0
    ensures forall k :: k in edges && k.source.sector != k.target.sector ==>
      edges[k].direction == Graph.External && edges[k].distance == SECTOR_BOUNDARY_PORTAL_PORTAL_DISTANCE
  {
    forall k | k in edges
      ensures k.source in nodes && k.target in nodes
      ensures edges[k].source == nodes[k.source] && edges[k].target == nodes[k.target]
      ensures k.source.sector == k.target.sector ==> edges[k].direction == Graph.Internal && sees(scaled[k.source.sector], k.source.cell, k.target.cell).0
    {
      if IsInternalEdge(portals, scaled, sees, k) {
        PairKeyEnds(k.source.sector, scaled[k.source.sector], sees, EveryPortal(portals[k.source.sector]), k);
      } else {
        ExternalEdgeCrosses(portals, dims, k);
        var s := k.source.sector;
        var ns := Graph.Neighbours(dims, s);
        var t, i :| 0 <= t < |ns| && ExternalAt(portals, s, portals[s], ns[t], i, k);
        var here, there := Graph.SideCells(portals[s], ns[t].0), Graph.SideCells(portals[ns[t].1], Inverse(ns[t].0));
        assert here[i] in here && there[i] in there;
        SideInEveryPortal(portals[s], ns[t].0, here[i]);
        SideInEveryPortal(portals[ns[t].1], Inverse(ns[t].0), there[i]);
      }
    }
  }

  /**
   * Of the nodes of a neighbour on its boundary with the changed sector,
   * `update_graph` keeps, with its old weight, each one whose cell is still
   * a portal on that side, and drops each one whose cell no longer is.
   */
  lemma UpdateKeepsFacingNodes(n0: map<NodeKey, PortalNode>, e0: map<EdgeKey, PortalEdge>,
                               nodes: map<NodeKey, PortalNode>, edges: map<EdgeKey, PortalEdge>,
                               portals: map<SectorID, Portals>, scaled: map<SectorID, CostField>, sees: Visibility,
                               changed: SectorID, dims: MapDimensions, t: nat, k: NodeKey)
    requires Graph.UpdateReady(portals, scaled, dims, changed)
    requires Updated(n0, e0, nodes, edges, portals, scaled, sees, changed, Graph.Neighbours(dims, changed))
    requires t < |Graph.Neighbours(dims, changed)| && Boundary(n0, Graph.Neighbours(dims, changed)[t], k)
    ensures k.cell in FacingCells(portals, Graph.Neighbours(dims, changed)[t]) ==> k in nodes && nodes[k] == n0[k]
    ensures k.cell !in FacingCells(portals, Graph.Neighbours(dims, changed)[t]) ==> k !in nodes
  {
    var ns := Graph.Neighbours(dims, changed);
    Graph.NeighboursDistinct(dims, changed);
  }

  /**
   * `update_graph` removes no edge ending in the changed sector: each stays
   * with its old value, even where its end is an old node the update
   * removed, so the graph is left with an edge to a node it no longer holds.
   */
  lemma UpdateKeepsEdgesIntoChanged(n0: map<NodeKey, PortalNode>, e0: map<EdgeKey, PortalEdge>,
                                    nodes: map<NodeKey, PortalNode>, edges: map<EdgeKey, PortalEdge>,
                                    portals: map<SectorID, Portals>, scaled: map<SectorID, CostField>, sees: Visibility,
                                    changed: SectorID, dims: MapDimensions, k: EdgeKey)
    requires Graph.UpdateReady(portals, scaled, dims, changed)
    requires Updated(n0, e0, nodes, edges, portals, scaled, sees, changed, Graph.Neighbours(dims, changed))
    requires k in e0 && k.target.sector == changed
    ensures k in edges && edges[k] == e0[k]
    ensures k.target.cell !in EveryPortal(portals[changed]) ==> k.target !in nodes
  {
    var ns := Graph.Neighbours(dims, changed);
    Graph.NeighboursDistinct(dims, changed);
  }

  /**
   * The external edges `update_graph` adds, from the changed sector into a
   * neighbour and back, have both ends among the nodes of the updated graph,
   * and cross from one sector into another.
   */
  lemma UpdateLinksNodes(n0: map<NodeKey, PortalNode>, e0: map<EdgeKey, PortalEdge>,
                         nodes: map<NodeKey, PortalNode>, edges: map<EdgeKey, PortalEdge>,
                         portals: map<SectorID, Portals>, scaled: map<SectorID, CostField>, sees: Visibility,
                         changed: SectorID, dims: MapDimensions, k: EdgeKey)
    requires Graph.UpdateReady(portals, scaled, dims, changed)
    requires Updated(n0, e0, nodes, edges, portals, scaled, sees, changed, Graph.Neighbours(dims, changed))
    requires IsExternalKey(portals, changed, portals[changed], Graph.Neighbours(dims, changed), k) ||
             BackKey(portals, changed, Graph.Neighbours(dims, changed), |Graph.Neighbours(dims, changed)|, k)
    ensures k in edges && k.source in nodes && k.target in nodes && k.source.sector != k.target.sector
  {
    var ns := Graph.Neighbours(dims, changed);
    Graph.NeighboursDistinct(dims, changed);
    if IsExternalKey(portals, changed, portals[changed], ns, k) {
      var u, i :| 0 <= u < |ns| && ExternalAt(portals, changed, portals[changed], ns[u], i, k);
      var here, there := Graph.SideCells(portals[changed], ns[u].0), FacingCells(portals, ns[u]);
      assert here[i] in here && there[i] in there;
      SideInEveryPortal(portals[changed], ns[u].0, here[i]);
      assert FacingNode(portals, ns[u], k.target);
    } else {
      var u, i :| 0 <= u < |ns| && u < |ns| && ns[u].1 in portals &&
        ExternalAt(portals, ns[u].1, portals[ns[u].1], (Inverse(ns[u].0), changed), i, k);
      InverseIsInvolution(ns[u].0);
      var here, there := FacingCells(portals, ns[u]), Graph.SideCells(portals[changed], ns[u].0);
      assert here[i] in here && there[i] in there;
      SideInEveryPortal(portals[changed], ns[u].0, there[i]);
      assert FacingNode(portals, ns[u], k.source);
    }
  }
}
