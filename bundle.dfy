/**
 * The entry point of the plugin (src/bundle.rs): the map's dimensions and
 * the bundle of components an entity carries to be routed over that map,
 * built from the older per-sector containers of src/flowfields/sectors.rs.
 *
 * The portal graph the bundle builds is made by a constructor whose
 * signature is not part of this model; it is taken as a parameter
 * `buildGraph` over what it is given, and the graph type is left generic.
 * The route cache is not part of this model either.
 */
module Bundle {
  import opened Options
  import opened Geometry
  import opened FieldCost
  import opened Portal
  import opened LegacySectors
  import opened FieldCache

  /** `MapDimensions(length, depth)`: the map's size along `x` and `z`. */
  datatype MapDimensions = MapDimensions(length: nat, depth: nat) {
    /** `get_column`. */
    function GetColumn(): nat {
      length
    }

    /** `get_row`. */
    function GetRow(): nat {
      depth
    }
  }

  /** `MapDimensions::new`: `None` where the source panics, for a side that is not a whole number of sectors. */
  function NewMapDimensions(length: nat, depth: nat): Option<MapDimensions> {
    if length % SECTOR_RESOLUTION > 0 || depth % SECTOR_RESOLUTION > 0 then None
    else Some(MapDimensions(length, depth))
  }

  /**
   * The dimensions exist exactly when both sides divide into sectors, and
   * the getters hand back the two sides; `(10, 10)` is accepted and
   * `(99, 3)` refused, as the unit tests expect.
   */
  lemma NewMapDimensionsMeaning(length: nat, depth: nat)
    ensures NewMapDimensions(length, depth).Some? <==> length % SECTOR_RESOLUTION == 0 && depth % SECTOR_RESOLUTION == 0
    ensures NewMapDimensions(length, depth).Some? ==>
      NewMapDimensions(length, depth).value.GetColumn() == length && NewMapDimensions(length, depth).value.GetRow() == depth
    ensures NewMapDimensions(10, 10) == Some(MapDimensions(10, 10))
    ensures NewMapDimensions(99, 3) == None
  {
  }

  /** `FlowFieldTilesBundle`, over the type `G` of the portal graph it holds. */
  class FlowFieldTilesBundle<G> {
    const sectorCostFields: SectorCostFields
    const sectorPortals: SectorPortals
    const portalGraph: G
    const mapDimensions: MapDimensions
    const flowFieldCache: FlowFieldCache

    constructor (costFields: SectorCostFields, portals: SectorPortals, graph: G, dims: MapDimensions, cache: FlowFieldCache)
      ensures sectorCostFields == costFields && sectorPortals == portals && portalGraph == graph
      ensures mapDimensions == dims && flowFieldCache == cache
    {
      sectorCostFields := costFields;
      sectorPortals := portals;
      portalGraph := graph;
      mapDimensions := dims;
      flowFieldCache := cache;
    }
  }

  /**
   * The portal update loop of `FlowFieldTilesBundle::new`, over every key of
   * the cost fields: it always succeeds on a map whose portals cover exactly
   * the map's sectors, and leaves every sector holding its own recalculated
   * portals. Which order the keys come in makes no difference to the result.
   */
  method UpdateEverySector(portals: SectorPortals, ids: set<Id>, mapX: nat, mapZ: nat, recalculated: Id -> Portals)
    requires portals.portals.Keys == MapIds(mapX, mapZ) == ids
    requires forall k :: k in portals.portals ==> portals.portals[k] == NO_PORTALS
    modifies portals
    ensures portals.portals.Keys == MapIds(mapX, mapZ)
    ensures forall k :: k in portals.portals ==> portals.portals[k] == recalculated(k)
  {
    var remaining := ids;
    while remaining != {}
      invariant remaining <= ids
      invariant portals.portals.Keys == MapIds(mapX, mapZ)
      invariant forall k :: k in portals.portals ==> portals.portals[k] == NO_PORTALS || portals.portals[k] == recalculated(k)
      invariant forall k :: k in ids - remaining ==> portals.portals[k] == recalculated(k)
      decreases remaining
    {
      var id :| id in remaining;
      assert mapX >= SECTOR_RESOLUTION && mapZ >= SECTOR_RESOLUTION;
      UpdateOnFullMap(portals.portals, id, mapX, mapZ, recalculated);
      ghost var before := portals.portals;
      var ok := portals.UpdatePortals(id, mapX, mapZ, recalculated);
      assert ok;
      assert forall k :: k in before ==> portals.portals[k] == if k == id || k in SectorNeighbours(id, mapX, mapZ) then recalculated(k) else before[k];
      remaining := remaining - {id};
    }
  }

  /**
   * `FlowFieldTilesBundle::new`: `None` where the dimensions are refused.
   * Otherwise every sector of the map has a default cost field, every
   * sector's portals have been recalculated before the graph is built from
   * them, and the flow field cache starts empty.
   */
  method NewBundle<G>(length: nat, depth: nat, recalculated: Id -> Portals,
                      buildGraph: (map<Id, Portals>, map<Id, CostField>, nat, nat) -> G)
    returns (bundle: Option<FlowFieldTilesBundle<G>>)
    ensures bundle.Some? <==> NewMapDimensions(length, depth).Some?
    ensures bundle.Some? ==> var b := bundle.value;
      fresh(b) && fresh(b.sectorCostFields) && fresh(b.sectorPortals) && fresh(b.flowFieldCache) &&
      b.mapDimensions == MapDimensions(length, depth) &&
      b.sectorCostFields.fields.Keys == MapIds(length, depth) &&
      (forall k :: k in b.sectorCostFields.fields ==> b.sectorCostFields.fields[k] == DefaultCostField()) &&
      b.sectorPortals.portals.Keys == MapIds(length, depth) &&
      (forall k :: k in b.sectorPortals.portals ==> b.sectorPortals.portals[k] == recalculated(k)) &&
      b.portalGraph == buildGraph(b.sectorPortals.portals, b.sectorCostFields.fields, length, depth) &&
      b.flowFieldCache.fields == map[]
  {
    var dims := NewMapDimensions(length, depth);
    if dims.None? {
      return None;
    }
    var costFields := new SectorCostFields(length, depth);
    var portals := new SectorPortals(length, depth);
    UpdateEverySector(portals, costFields.fields.Keys, dims.value.GetColumn(), dims.value.GetRow(), recalculated);
    var graph := buildGraph(portals.portals, costFields.fields, dims.value.GetColumn(), dims.value.GetRow());
    var cache := new FlowFieldCache();
    var b := new FlowFieldTilesBundle(costFields, portals, graph, dims.value, cache);
    return Some(b);
  }

  /** The unit test `new_bundle`: a map of 30 x 30 units gives a bundle of nine sectors. */
  method NewBundleExample(recalculated: Id -> Portals, buildGraph: (map<Id, Portals>, map<Id, CostField>, nat, nat) -> int)
  {
    var bundle := NewBundle(30, 30, recalculated, buildGraph);
    assert bundle.Some?;
    MapIdsCount(30, 30);
    assert |bundle.value.sectorPortals.portals.Keys| == 9;
  }
}
