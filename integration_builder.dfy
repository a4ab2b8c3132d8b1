/**
 * `IntegrationBuilder` (src/flowfields/fields/integration_field.rs): the
 * integration fields of every sector along a route, from the sector of the
 * target goal to the sector of the actor, built in passes. Portal expansion
 * gives each field its goals, the line-of-sight pass runs from the target
 * goal and records corners, and the cost pass runs the cost wavefront of
 * every field from its corners.
 */
module IntegrationBuilding {
  import opened Options
  import opened Geometry
  import opened Grids
  import opened Sectors
  import opened FieldCost
  import opened Integration
  import opened Portal
  import opened SectorFields
  import opened SectorPortalsMap

  /**
   * A route: sectors from the one holding the target goal to the one holding
   * the actor, each with the goal (the first) or the portal cell leading on
   * towards the goal (the rest).
   */
  type Route = seq<(SectorID, FieldCell)>

  /** One entry of `integration_fields`: the sector, its goals, its field. */
  datatype FieldEntry = FieldEntry(sector: SectorID, goals: seq<FieldCell>, field: IntegrationField)

  /** Setting each of `cells`, in order, to the same value. */
  function SetEach(f: IntegrationField, value: U32, cells: seq<FieldCell>): (g: IntegrationField)
    ensures g.losCorners == f.losCorners
    ensures forall c :: GetValue(g, c) == if c in cells then value else GetValue(f, c)
    decreases |cells|
  {
    if cells == [] then f
    else SetValue(SetEach(f, value, cells[..|cells| - 1]), value, cells[|cells| - 1])
  }

  /**
   * Entry `i` after `expand_field_portals`: the first entry gains the route's
   * goal, set to the goal flag; every later one gains the expansion of its
   * portal towards the previous sector of the route, each cell set to the
   * portal flag. `None` where the source panics: a sector without portals,
   * or a portal that does not expand.
   */
  function ExpandedEntry(e: FieldEntry, path: Route, i: nat, portals: map<SectorID, Portals>,
                         scaled: map<SectorID, CostField>, dims: MapDimensions): Option<FieldEntry>
    requires i < |path|
    requires dims.sectorResolution > 0 && dims.Columns() > 0 && dims.Rows() > 0
  {
    if i == 0 then
      Some(FieldEntry(e.sector, e.goals + [path[0].1], SetValue(e.field, FLAG_GOAL, path[0].1)))
    else if e.sector !in portals then None
    else
      match ExpandedGoals(scaled, dims, e.sector, path[i].1, path[i - 1].0)
      case None => None
      case Some(gs) => Some(FieldEntry(e.sector, e.goals + gs, SetEach(e.field, FLAG_PORTAL, gs)))
  }

  /** What `expand_field_portals` does to an entry. */
  lemma ExpandedEntryMeaning(e: FieldEntry, path: Route, i: nat, portals: map<SectorID, Portals>,
                             scaled: map<SectorID, CostField>, dims: MapDimensions)
    requires i < |path|
    requires dims.sectorResolution > 0 && dims.Columns() > 0 && dims.Rows() > 0
    ensures i == 0 ==> ExpandedEntry(e, path, i, portals, scaled, dims).Some?
    ensures match ExpandedEntry(e, path, i, portals, scaled, dims)
      case None => true
      case Some(x) =>
        && x.sector == e.sector && |e.goals| < |x.goals| && x.goals[..|e.goals|] == e.goals
        && x.field.losCorners == e.field.losCorners
        && (i == 0 ==> x.goals[|e.goals|..] == [path[0].1])
        && (i > 0 ==> x.goals[|e.goals|..] == ExpandedGoals(scaled, dims, e.sector, path[i].1, path[i - 1].0).value
                      && x.goals[|e.goals|] == path[i].1)
        && (forall c :: c in x.goals[|e.goals|..] ==> GetValue(x.field, c) == if i == 0 then FLAG_GOAL else FLAG_PORTAL)
        && (forall c :: c !in x.goals[|e.goals|..] ==> GetValue(x.field, c) == GetValue(e.field, c))
  {
    match ExpandedEntry(e, path, i, portals, scaled, dims)
    case None =>
    case Some(x) =>
      assert x.goals[..|e.goals|] == e.goals;
      if i > 0 {
        var gs := ExpandedGoals(scaled, dims, e.sector, path[i].1, path[i - 1].0).value;
        assert x.goals[|e.goals|..] == gs;
        ExpansionStartsWithPortal(scaled, dims, e.sector, path[i].1, path[i - 1].0);
      } else {
        assert x.goals[|e.goals|..] == [path[0].1];
      }
  }

  /** The expansion of a portal starts with the portal itself. */
  lemma ExpansionStartsWithPortal(fields: map<SectorID, CostField>, dims: MapDimensions, id: SectorID, portal: FieldCell,
                                  neighbour: SectorID)
    requires dims.sectorResolution > 0 && dims.Columns() > 0 && dims.Rows() > 0
    ensures ExpandedGoals(fields, dims, id, portal, neighbour).Some? ==>
              |ExpandedGoals(fields, dims, id, portal, neighbour).value| > 0
              && ExpandedGoals(fields, dims, id, portal, neighbour).value[0] == portal
  {
  }

  /** An entry after the corner step of `calculate_los`: a field with no corners takes its goals as corners. */
  function WithGoalCorners(e: FieldEntry): (r: FieldEntry)
    ensures r.sector == e.sector && r.goals == e.goals && r.field.field == e.field.field
    ensures r.field.losCorners == if e.field.losCorners == [] then e.goals else e.field.losCorners
  {
    if e.field.losCorners == [] then FieldEntry(e.sector, e.goals, IntegrationField(e.field.field, e.goals)) else e
  }

  /**
   * The first entry after `calculate_los`: its first goal is put in sight,
   * and `r` is the result of the line-of-sight wavefront from its goals, with
   * the rings, first ring cost and layering that wavefront promises.
   */
  ghost predicate LosPassed(before: FieldEntry, r: IntegrationField)
    requires |before.goals| > 0
  {
    var start := SetInitialLos(before.field, before.goals[0]);
    && LosKeeps(start, r, 1, 1 + 2 * CELL_COUNT)
    && (forall w, n :: w in before.goals && OrthogonallyAdjacent(w, n) ==> Stopped(GetValue(r, n)))
    && (forall c, n :: NewLos(start, r, c) && OrthogonallyAdjacent(c, n) ==> Stopped(GetValue(r, n)))
    && (exists rings :: |rings| > 0 && rings[0] == before.goals && LosRings(start, r, rings, 1))
    && LosFirstRing(start, r, before.goals, 1) && LosLayered(start, r)
  }

  /** An entry after `build_integrated_cost`: its field is the cost wavefront from its corners over its scaled costs. */
  ghost predicate CostPassed(before: FieldEntry, after: FieldEntry, costs: CostField) {
    && after.sector == before.sector && after.goals == before.goals
    && after.field.losCorners == before.field.losCorners
    && exists parents :: Wavefront(before.field.field, CornerQueue(before.field), costs, after.field.field, parents)
  }

  /** The body of the loop of `expand_field_portals` for entry `i`; `None` where the source panics. */
  method ExpandEntry(e: FieldEntry, path: Route, i: nat, portals: map<SectorID, Portals>,
                     scaled: map<SectorID, CostField>, dims: MapDimensions) returns (r: Option<FieldEntry>)
    requires i < |path|
    requires dims.sectorResolution > 0 && dims.Columns() > 0 && dims.Rows() > 0
    ensures r == ExpandedEntry(e, path, i, portals, scaled, dims)
  {
    var goals, field := e.goals, e.field;
    if i == 0 {
      goals := goals + [path[i].1];
      field := SetValue(field, FLAG_GOAL, path[i].1);
    } else {
      var neighbourSectorId := path[i - 1].0;
      if e.sector !in portals {
        return None;
      }
      var expanded := ExpandPortalIntoGoals(scaled, dims, e.sector, path[i].1, neighbourSectorId);
      if expanded.None? {
        return None;
      }
      goals, field := MarkPortalGoals(goals, field, expanded.value);
    }
    r := Some(FieldEntry(e.sector, goals, field));
  }

  /** The inner loop of `expand_field_portals`: each expanded cell joins the goals and takes the portal flag. */
  method MarkPortalGoals(goals0: seq<FieldCell>, field0: IntegrationField, gs: seq<FieldCell>)
    returns (goals: seq<FieldCell>, field: IntegrationField)
    ensures goals == goals0 + gs && field == SetEach(field0, FLAG_PORTAL, gs)
  {
    goals, field := goals0, field0;
    for j := 0 to |gs|
      invariant goals == goals0 + gs[..j]
      invariant field == SetEach(field0, FLAG_PORTAL, gs[..j])
    {
      assert gs[..j + 1][..j] == gs[..j];
      goals := goals + [gs[j]];
      field := SetValue(field, FLAG_PORTAL, gs[j]);
      assert goals0 + gs[..j + 1] == goals0 + gs[..j] + [gs[j]];
    }
    assert gs[..|gs|] == gs;
  }

  /** The corner step of `calculate_los` for one entry: a field with no corners takes its goals, in order. */
  method AddGoalCorners(e: FieldEntry) returns (r: FieldEntry)
    ensures r == WithGoalCorners(e)
  {
    var field := e.field;
    if field.losCorners == [] {
      for k := 0 to |e.goals|
        invariant field == IntegrationField(e.field.field, e.goals[..k])
      {
        field := AddLosCorner(field, e.goals[k]);
        assert e.goals[..k + 1] == e.goals[..k] + [e.goals[k]];
      }
      assert e.goals[..|e.goals|] == e.goals;
    }
    r := FieldEntry(e.sector, e.goals, field);
  }

  class IntegrationBuilder {
    /** The route the fields are built along. */
    var path: Route
    /** One entry per route step, in route order. */
    var integrationFields: seq<FieldEntry>
    var hasExpandedPortals: bool
    var hasLosPass: bool
    var hasCostPass: bool

    /** Every entry belongs to the sector of its route step. */
    ghost predicate Valid()
      reads this
    {
      |integrationFields| == |path| && forall k :: 0 <= k < |path| ==> integrationFields[k].sector == path[k].0
    }

    /**
     * `new`: for each step of the route, in order, a field with no goals yet,
     * built by `IntegrationField::new` from the step's cell and the sector's
     * scaled costs; no pass done yet.
     */
    constructor (path: Route, costFields: SectorCostFields)
      requires forall k :: 0 <= k < |path| ==> path[k].0 in costFields.scaled
      ensures this.path == path && Valid()
      ensures forall k :: 0 <= k < |path| ==>
                integrationFields[k] == FieldEntry(path[k].0, [], NewField(path[k].1, costFields.scaled[path[k].0]))
      ensures !hasExpandedPortals && !hasLosPass && !hasCostPass
    {
      var fields: seq<FieldEntry> := [];
      for k := 0 to |path|
        invariant |fields| == k
        invariant forall j :: 0 <= j < k ==> fields[j] == FieldEntry(path[j].0, [], NewField(path[j].1, costFields.scaled[path[j].0]))
      {
        var cost := costFields.scaled[path[k].0];
        var field := New(path[k].1, cost);
        fields := fields + [FieldEntry(path[k].0, [], field)];
      }
      this.path := path;
      integrationFields := fields;
      hasExpandedPortals, hasLosPass, hasCostPass := false, false, false;
    }

    function GetRoute(): Route
      reads this
    {
      path
    }

    function GetIntegrationFields(): seq<FieldEntry>
      reads this
    {
      integrationFields
    }

    function HasExpandedPortals(): bool
      reads this
    {
      hasExpandedPortals
    }

    function HasLosPass(): bool
      reads this
    {
      hasLosPass
    }

    function HasCostPass(): bool
      reads this
    {
      hasCostPass
    }

    /** `set_expanded_portals`: the flag becomes true, nothing else changes. */
    method SetExpandedPortals()
      modifies this
      ensures hasExpandedPortals && hasLosPass == old(hasLosPass) && hasCostPass == old(hasCostPass)
      ensures path == old(path) && integrationFields == old(integrationFields)
    {
      hasExpandedPortals := true;
    }

    /** `set_los_pass`: the flag becomes true, nothing else changes. */
    method SetLosPass()
      modifies this
      ensures hasLosPass && hasExpandedPortals == old(hasExpandedPortals) && hasCostPass == old(hasCostPass)
      ensures path == old(path) && integrationFields == old(integrationFields)
    {
      hasLosPass := true;
    }

    /** `set_cost_pass`: the flag becomes true, nothing else changes. */
    method SetCostPass()
      modifies this
      ensures hasCostPass && hasExpandedPortals == old(hasExpandedPortals) && hasLosPass == old(hasLosPass)
      ensures path == old(path) && integrationFields == old(integrationFields)
    {
      hasCostPass := true;
    }

    /**
     * `expand_field_portals`: every entry becomes its `ExpandedEntry`;
     * `false` where the source panics, at the first entry that cannot be
     * expanded.
     */
    method ExpandFieldPortals(sectorPortals: SectorPortals, costFields: SectorCostFields, dims: MapDimensions) returns (ok: bool)
      requires Valid()
      requires dims.sectorResolution > 0 && dims.Columns() > 0 && dims.Rows() > 0
      modifies this
      ensures path == old(path) && Valid()
      ensures hasExpandedPortals == old(hasExpandedPortals) && hasLosPass == old(hasLosPass) && hasCostPass == old(hasCostPass)
      ensures ok <==> forall i :: 0 <= i < |path| ==>
                ExpandedEntry(old(integrationFields)[i], path, i, sectorPortals.portals, costFields.scaled, dims).Some?
      ensures ok ==> forall i :: 0 <= i < |path| ==>
                integrationFields[i] == ExpandedEntry(old(integrationFields)[i], path, i, sectorPortals.portals, costFields.scaled, dims).value
    {
      ghost var before := integrationFields;
      for i := 0 to |integrationFields|
        invariant path == old(path) && Valid() && |before| == |path|
        invariant hasExpandedPortals == old(hasExpandedPortals) && hasLosPass == old(hasLosPass) && hasCostPass == old(hasCostPass)
        invariant forall j :: 0 <= j < i ==> ExpandedEntry(before[j], path, j, sectorPortals.portals, costFields.scaled, dims).Some?
        invariant forall j :: 0 <= j < i ==>
                    integrationFields[j] == ExpandedEntry(before[j], path, j, sectorPortals.portals, costFields.scaled, dims).value
        invariant forall j :: i <= j < |path| ==> integrationFields[j] == before[j]
      {
        var expanded := ExpandEntry(integrationFields[i], path, i, sectorPortals.portals, costFields.scaled, dims);
        if expanded.None? {
          return false;
        }
        integrationFields := integrationFields[i := expanded.value];
      }
      ok := true;
    }

    /**
     * `calculate_los`: the line-of-sight wavefront from the goals of the first
     * entry, its first goal put in sight beforehand; then every field that
     * has no corners takes its goals as corners. `false` where the source
     * panics: a first entry without goals.
     */
    method CalculateLos(line: (FieldCell, FieldCell) -> seq<FieldCell>,
                        diagonalEnd: (FieldCell, FieldCell) -> FieldCell) returns (ok: bool)
      requires Valid()
      requires forall a: FieldCell, b: FieldCell :: |line(a, b)| <= FIELD_RESOLUTION
      modifies this
      ensures path == old(path) && Valid()
      ensures hasExpandedPortals == old(hasExpandedPortals) && hasLosPass == old(hasLosPass) && hasCostPass == old(hasCostPass)
      ensures ok <==> |path| == 0 || |old(integrationFields)[0].goals| > 0
      ensures ok && |path| > 0 ==>
                exists r :: LosPassed(old(integrationFields)[0], r)
                            && integrationFields[0] == WithGoalCorners(FieldEntry(path[0].0, old(integrationFields)[0].goals, r))
      ensures ok ==> forall i :: 0 < i < |path| ==> integrationFields[i] == WithGoalCorners(old(integrationFields)[i])
    {
      if |integrationFields| > 0 {
        var first := integrationFields[0];
        if |first.goals| == 0 {
          return false;
        }
        var field := SetInitialLos(first.field, first.goals[0]);
        ghost var rings;
        field, rings := CalculateSectorGoalLos(field, first.goals, first.goals[0], line, diagonalEnd);
        assert LosPassed(first, field);
        integrationFields := integrationFields[0 := FieldEntry(first.sector, first.goals, field)];
      }
      ghost var mid := integrationFields;
      for i := 0 to |integrationFields|
        invariant path == old(path) && Valid() && |mid| == |path|
        invariant hasExpandedPortals == old(hasExpandedPortals) && hasLosPass == old(hasLosPass) && hasCostPass == old(hasCostPass)
        invariant forall j :: 0 <= j < i ==> integrationFields[j] == WithGoalCorners(mid[j])
        invariant forall j :: i <= j < |path| ==> integrationFields[j] == mid[j]
      {
        var entry := AddGoalCorners(integrationFields[i]);
        integrationFields := integrationFields[i := entry];
      }
      ok := true;
    }

    /**
     * `build_integrated_cost`: the cost wavefront of every field from its
     * corners over its sector's scaled costs. `false` where the source
     * panics: a sector without scaled costs.
     */
    method BuildIntegratedCost(costFields: SectorCostFields) returns (ok: bool)
      requires Valid()
      modifies this
      ensures path == old(path) && Valid()
      ensures hasExpandedPortals == old(hasExpandedPortals) && hasLosPass == old(hasLosPass) && hasCostPass == old(hasCostPass)
      ensures ok <==> forall i :: 0 <= i < |path| ==> path[i].0 in costFields.scaled
      ensures ok ==> forall i :: 0 <= i < |path| ==>
                CostPassed(old(integrationFields)[i], integrationFields[i], costFields.scaled[path[i].0])
    {
      ghost var before := integrationFields;
      for i := 0 to |integrationFields|
        invariant path == old(path) && Valid() && |before| == |path|
        invariant hasExpandedPortals == old(hasExpandedPortals) && hasLosPass == old(hasLosPass) && hasCostPass == old(hasCostPass)
        invariant forall j :: 0 <= j < i ==> path[j].0 in costFields.scaled
        invariant forall j :: 0 <= j < i ==> CostPassed(before[j], integrationFields[j], costFields.scaled[path[j].0])
        invariant forall j :: i <= j < |path| ==> integrationFields[j] == before[j]
      {
        var entry := integrationFields[i];
        if entry.sector !in costFields.scaled {
          return false;
        }
        var costField := costFields.scaled[entry.sector];
        var field: IntegrationField;
        ghost var parents: seq<Parent>;
        field, parents := CalculateField(entry.field, costField);
        integrationFields := integrationFields[i := FieldEntry(entry.sector, entry.goals, field)];
      }
      ok := true;
    }
  }
}
