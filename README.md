# Flow field tiles, modelled in Dafny

This project models the core of `bevy_flowfield_tiles_plugin`, the Rust crate that steers
actors across a large world with flow fields. The world is cut into sectors of
10 x 10 field cells. Each sector has a cost field of 8-bit costs. A cost of 255 is
impassable, and the default cost is 1.

Along every boundary that two sectors share, each maximal run of cells that is pathable
on both sides yields one portal, placed at the middle of the run. The portals form a
graph. An A* search over that graph picks the sequence of sectors and portals an actor
walks through. For each sector on that route the crate then builds:

- an integration field, made by a line-of-sight pass from the goal and then a cost
  wavefront from the line-of-sight corners;
- a flow field, which points every cell at its cheapest neighbour.

When a cost field changes, the scaled cost fields, the portals and the graph are
brought back in line. Only the sectors around the change are updated.

The crate keeps two generations of these structures:

- The current one lives under `src/flowfields/sectors/`, `src/flowfields/portal/` and
  `src/flowfields/fields/`.
- The older one is `src/flowfields/sectors.rs`, `cost_field.rs`, `cost_fields.rs`,
  `flow_field.rs`, `flow_fields.rs` and `integration_fields.rs`, together with
  `portal_graph_node_edges.rs`. The bundle in `src/bundle.rs` still builds on it.

Both generations are modelled, one Dafny module per source file:

| module | file | source |
|---|---|---|
| Options | options.dfy | the `Option` result used for panics and absent values |
| Geometry | geometry.dfy | src/flowfields/utilities.rs |
| Grids | grids.dfy | the 10 x 10 storage, in column-major order, that every field shares |
| Sectors | sectors.dfy | src/flowfields/sectors/mod.rs |
| Reachability | reachability.dfy | the walks that specify the breadth-first searches of both cost fields |
| FieldCost | field_cost.dfy | src/flowfields/fields/cost_field.rs |
| Portal | portals.dfy | src/flowfields/portal/portals.rs |
| SectorCost | sector_cost.dfy | src/flowfields/sectors/sector_cost.rs, the functions that specify scaling |
| SectorFields | sector_fields.dfy | src/flowfields/sectors/sector_cost.rs, the class `SectorCostFields` |
| SectorPortalsMap | sector_portals.dfy | src/flowfields/sectors/sector_portals.rs |
| Flow | flow_field.dfy | src/flowfields/fields/flow_field.rs |
| FieldCache | field_cache.dfy | src/flowfields/fields/mod.rs |
| Integration | integration_field.dfy | src/flowfields/fields/integration_field.rs, the field |
| IntegrationBuilding | integration_builder.dfy | src/flowfields/fields/integration_field.rs, `IntegrationBuilder` |
| Graph | graph.dfy | src/flowfields/portal/portal_graph.rs, the graph |
| GraphSearch | graph_search.dfy | src/flowfields/portal/portal_graph.rs, A* and path selection |
| Queues | queues.dfy | the `swap_remove(0)` and `sort_by` that both A* searches apply to their queue |
| LegacyCostField | legacy_cost_field.dfy | src/flowfields/cost_field.rs |
| LegacyCostFields | legacy_cost_fields.dfy | src/flowfields/cost_fields.rs |
| LegacyFlowField | legacy_flow_field.dfy | src/flowfields/flow_field.rs |
| LegacyFlowFields | legacy_flow_fields.dfy | src/flowfields/flow_fields.rs |
| LegacyIntegrationFields | legacy_integration_fields.dfy | src/flowfields/integration_fields.rs |
| LegacySectors | legacy_sectors.dfy | src/flowfields/sectors.rs |
| LegacyGraph | legacy_graph.dfy | src/flowfields/portal/portal_graph_node_edges.rs, the graph |
| LegacyGraphSearch | legacy_graph_search.dfy | src/flowfields/portal/portal_graph_node_edges.rs, A* and path selection |
| Bundle | bundle.dfy | src/bundle.rs |

Values that the source copies in and out of its maps are Dafny datatypes. This covers
the newer `CostField`, `Portals`, `IntegrationField` and `FlowField`. A `&mut` method on
one of them becomes a function that returns the new value, and the owning container
stores that value back.

The source also has containers that it updates in place. These are classes, with
`modifies` clauses on their methods:

- `SectorCostFields`, `SectorPortals`, both `PortalGraph`s, `FlowFieldCache` and
  `IntegrationBuilder`. Each keeps its maps as `map` fields.
- the older standalone grids. Each keeps its data as an `array2`.

Every loop of the source that updates state is a method with a loop; a loop that only gathers values, such as the portal list of `create_sector_internal_edges` (Graph.PortalList), is a sequence comprehension. Each such method is proved
against a function or predicate that specifies its result. The properties are then
proved about that function as lemmas.

The source's unit tests fix a number of concrete outcomes, and these are also proved as
lemmas:

- the portals of a default sector, and of a sector split by a wall;
- the expansion of a portal into goals;
- the flow direction towards a goal on each side;
- Manhattan integration costs;
- straight line-of-sight propagation;
- scaling near the edges of the world;
- sector ids from ordinals and neighbour lists.

## Model

| member | source | states |
|---|---|---|
| Geometry.OrthogonalNeighbours | src/flowfields/utilities.rs:29-45 | at most four cells, exactly the cells one orthogonal step away inside the 10 x 10 field |
| Geometry.AllNeighbours | src/flowfields/utilities.rs:46-74 | at most eight cells, the orthogonal neighbours first, exactly the cells one step away in any of the eight directions |
| Geometry.OrthogonalNeighboursInOrder | src/flowfields/utilities.rs:31-44 | the orthogonal neighbours come in North, East, South, West order, each only where the step stays in the field |
| Geometry.StepsTowardAppend | src/flowfields/utilities.rs:47-74 | enumerating the steps of two lists of directions is the concatenation of enumerating each list |
| Geometry.StepsTowardFour | src/flowfields/utilities.rs:31-72 | enumerating the steps of four directions yields each single in-field step in the order of the directions |
| Geometry.AllNeighboursInOrder | src/flowfields/utilities.rs:47-74 | all neighbours come in N, E, S, W, NE, SE, SW, NW order |
| Geometry.DiagonalNeighboursInOrder | src/flowfields/utilities.rs:56-72 | the diagonal neighbours come in NE, SE, SW, NW order |
| Geometry.Inverse | src/flowfields/utilities.rs:144-157 | the opposite direction: its step offset is the negated offset (Zero stays Zero) |
| Geometry.InverseIsInvolution | src/flowfields/utilities.rs:144-157 | inverting twice gives the direction back, and inversion keeps a direction orthogonal or diagonal |
| Geometry.CellNeighbourInverse | src/flowfields/utilities.rs:144-157 | a step followed by the step in the inverse direction returns to the starting cell |
| Geometry.CellToCellDirection | src/flowfields/utilities.rs:158-178 | a direction exactly when the two cells are adjacent (the source panics otherwise), and that direction steps from source to target |
| Geometry.CellToCellDirectionOfStep | src/flowfields/utilities.rs:158-178 | the direction of any step is recovered from its two cells |
| Geometry.SectorToSectorDirection | src/flowfields/utilities.rs:179-198 | a direction exactly when the sectors are orthogonally adjacent (an error is logged otherwise), and its offset is the difference of the ids |
| Geometry.SectorNeighbourFunctionsAgree | src/flowfields/utilities.rs:75-142 | the sector neighbours, the portal ordinals and the ordinal-and-id list have the same length (at most four) and agree entry by entry |
| Geometry.SectorNeighboursWithOrdinalMeaning | src/flowfields/utilities.rs:121-142 | each entry pairs a side with the sector across it, sides come in N, E, S, W order, and for a sector of the map the entries are exactly its orthogonal neighbours in the map |
| Geometry.SectorNeighbourExamples | src/flowfields/utilities.rs:233-318 | the unit-test examples: the neighbours of corner sectors of a 300 x 550 map and the ordinals of a middle sector of a 200 x 200 map |
| Geometry.CellNeighbourExamples | src/flowfields/utilities.rs:205-330 | the unit-test examples of cell neighbours and of `cell_to_cell_direction` |
| Grids.Index | src/flowfields/fields/cost_field.rs:61-77 | the storage position of a `[column][row]` cell is one of the 100 positions of a field |
| Grids.CellAt | src/flowfields/fields/cost_field.rs:61-77 | the cell stored at a position, the inverse of `Index` |
| Grids.IndexInjective | src/flowfields/fields/cost_field.rs:61-77 | distinct cells have distinct storage positions, so writing one cell leaves every other cell alone |
| Sectors.SectorID.Get | src/flowfields/sectors/mod.rs:22-25 | the `(column, row)` pair that builds the same id back |
| Sectors.SectorLessIsStrictTotalOrder | src/flowfields/sectors/mod.rs:14-15 | the derived ordering of sector ids (column first, then row) is irreflexive, transitive and total |
| Sectors.NewMapDimensions | src/flowfields/sectors/mod.rs:103-126 | a value exactly when the resolution divides both sides and the actor size is not negative (the source panics otherwise), holding the given sizes and the ceiling of `actor_size / (resolution / 10)` as actor scale |
| Sectors.NewMapDimensionsExamples | src/flowfields/sectors/mod.rs:68-99 | the documented examples: a 30 x 30 world of 10 px sectors and a 1920 x 1920 world of 640 px sectors, and the two panicking inputs |
| Sectors.SectorIdFromOrdinal | src/flowfields/sectors/mod.rs:386-477 | a neighbour exactly when the move is allowed: North/West while the row/column is positive, East/South under the `count - 1` limit as written, Zero never; the neighbour is one step away |
| Sectors.DiagonalMovesCompose | src/flowfields/sectors/mod.rs:408-470 | a diagonal move exists exactly when both of its orthogonal component moves exist, and lands on their column and row |
| Sectors.SectorIdFromOrdinalExamples | src/flowfields/sectors/mod.rs:670-740 | the unit-test moves from sector (1, 1) of a 300 x 300 map in all eight directions, and the refused North move from (1, 0) |
| Sectors.EastStopsBeforeLastColumn | src/flowfields/sectors/mod.rs:398-406 | as written, the East move from column 28 of a 30-sector-wide map is refused |
| Sectors.NeighbourAcross | src/flowfields/sectors/mod.rs:372-385 | a sector across a side exists only for an orthogonal side and lies inside the map |
| Sectors.OrdinalAndIdsOfNeighbouringSectors | src/flowfields/sectors/mod.rs:372-385 | every listed side is orthogonal |
| Sectors.NeighbouringSectorsIds | src/flowfields/sectors/mod.rs:360-385 | the id list is the ordinal-and-id list without its sides, at most four entries |
| Sectors.NeighbouringSectorsMeaning | src/flowfields/sectors/mod.rs:372-385 | for a sector of the map each entry pairs a side with the sector across it, sides come in N, E, S, W order, and every side that faces another sector is listed |
| Sectors.NeighbouringSectorsAtStandardResolution | src/flowfields/sectors/mod.rs:372-385 | with resolution 10 the list is exactly that of `get_sector_neighbours_with_ordinal` on the map size |
| Sectors.NeighbourAcrossInverse | src/flowfields/sectors/mod.rs:372-385 | adjacency is symmetric: the sector across a side has this one across the inverse side |
| Reachability.RouteEntersNeighbour | src/flowfields/fields/cost_field.rs:128-133 | a route enters the target from an orthogonal neighbour that is the source or a passable cell, as the search accepts the target from any explored cell next to it |
| Reachability.ReachesNeighbour | src/flowfields/fields/cost_field.rs:134-139 | a passable neighbour of an explored cell is explored |
| Reachability.ReachesNeighbourIn | src/flowfields/fields/cost_field.rs:134-139 | a passable neighbour of a cell explored in `steps` rounds is explored in `steps + 1` |
| Reachability.RouteThrough | src/flowfields/fields/cost_field.rs:128-133 | a target next to a cell explored in `steps` rounds has a route of `steps + 1` steps |
| Reachability.ConnectedThrough | src/flowfields/fields/cost_field.rs:128-133 | a target next to an explored cell is connected to the source |
| Reachability.ClosedRegionHasNoRoute | src/flowfields/fields/cost_field.rs:140-145 | no route leaves a set of explored cells whose frontier is exhausted and never touched the target |
| Reachability.ClosedRegionBlocksTarget | src/flowfields/fields/cost_field.rs:140-145 | when the search runs out of cells without meeting the target, source and target are not connected |
| Reachability.EnclosedTargetUnreachable | src/flowfields/fields/cost_field.rs:120-146 | a target whose orthogonal neighbours are all impassable cannot be reached from a cell that is not one of them |
| Reachability.RoundExtendsReach | src/flowfields/fields/cost_field.rs:126-141 | after a round, every cell reachable in one more step is explored or queued for the next round |
| Reachability.RoundExcludesLength | src/flowfields/fields/cost_field.rs:128-133 | when a round has not met the target, no route of exactly one more step exists |
| Reachability.RouteDropsLastStep | src/flowfields/fields/cost_field.rs:128-133 | a route of `steps + 1` steps explores the target's neighbour in `steps` rounds |
| Reachability.SourceReached | src/flowfields/fields/cost_field.rs:88-92 | the search starts with the source explored in zero rounds |
| FieldCost.DefaultCostField | src/flowfields/fields/cost_field.rs:53-57 | every cell of the default field costs 1 |
| FieldCost.NewWithCost | src/flowfields/fields/cost_field.rs:78-81 | every cell of the new field holds the given cost |
| FieldCost.SetCost | src/flowfields/fields/cost_field.rs:70-75 | the written cell holds the new value and every other cell keeps its cost |
| FieldCost.CostFieldsEqual | src/flowfields/fields/cost_field.rs:51 | two fields that agree on every cell are the same field |
| FieldCost.SumAppend | src/flowfields/fields/cost_field.rs:168-170 | the sum of `steps_taken` grows by the cost pushed |
| FieldCost.SumBounds | src/flowfields/fields/cost_field.rs:168-170 | a sum of entries in `0..bound` lies between 0 and `bound` times the length |
| FieldCost.MeanOfCosts | src/flowfields/fields/cost_field.rs:164-170 | the integer mean of step costs below 255 is itself a cost below 255 |
| FieldCost.ScanNeighbours | src/flowfields/fields/cost_field.rs:127-139 | a hit only when the target is next to an explored cell (so connected); otherwise every neighbour is not the target and is impassable, visited or enqueued, and only newly reached cells are enqueued |
| FieldCost.SearchRound | src/flowfields/fields/cost_field.rs:124-140 | a hit means connected; otherwise the queue joins the visited set, the frontier invariant holds for the next queue, and the next queue holds only reached, unvisited cells |
| FieldCost.ProcessNeighbours | src/flowfields/fields/cost_field.rs:119-146 | true exactly when a walk over passable cells joins source and target (the target's own cost ignored) |
| FieldCost.IsCellPairReachable | src/flowfields/fields/cost_field.rs:82-92 | true exactly when the cells are equal or connected by a walk through passable cells |
| FieldCost.ExtendsWithCostsTransitive | src/flowfields/fields/cost_field.rs:166-170 | the cost record only grows by costs below 255 across rounds |
| FieldCost.ScanNeighboursDistance | src/flowfields/fields/cost_field.rs:160-178 | the hit flag and the new queue are exactly `ScanAt` over the cell's orthogonal neighbours, the step record becomes exactly the old one followed by the costs of the cells it enqueued, and (through `ScanDistanceFacts`) a hit means connected while a miss leaves every neighbour impassable, visited or enqueued |
| FieldCost.DistanceRound | src/flowfields/fields/cost_field.rs:158-179 | hit, visited set and next queue are exactly `RoundAt` from the start of the queue; the step record is exactly the old one followed by the costs of the next queue, every enqueued cell is reached from the source, and a miss keeps the frontier invariant |
| FieldCost.ProcessNeighboursDistance | src/flowfields/fields/cost_field.rs:151-185 | `Some` exactly when source and target are connected and exactly when `SearchFrom` finds the target; the answer is the integer mean of the final step record, which is exactly the given record followed by the costs of the cells `SearchFrom` lists, each reached from the source |
| FieldCost.GetDistanceBetweenCells | src/flowfields/fields/cost_field.rs:93-106 | the answer is exactly `DistanceBetween`: `Some(1)` for a cell and itself; otherwise `Some` exactly when connected, the integer mean of `[0]` followed by the costs of the enqueued cells, each passable, reached from the source and not the source; always in `0..254` |
| FieldCost.CostsOfConcat | src/flowfields/fields/cost_field.rs:174 | the costs recorded for two runs of enqueued cells are the costs of the first run followed by those of the second |
| FieldCost.ScanAt | src/flowfields/fields/cost_field.rs:164-177 | the cells enqueued while scanning neighbours keep the earlier queue as a prefix and are all passable and unvisited |
| FieldCost.ScanAtCovers | src/flowfields/fields/cost_field.rs:164-177 | a scan stops only when the target is among the remaining neighbours, enqueues only those neighbours, and without stopping leaves each remaining neighbour not the target and impassable, visited or enqueued |
| FieldCost.RoundAt | src/flowfields/fields/cost_field.rs:160-179 | a round marks the queued cell visited, keeps the earlier next queue as a prefix, and enqueues only passable cells that were not visited and are not the queued cell |
| FieldCost.RoundAtGrows | src/flowfields/fields/cost_field.rs:160-179 | a round without a hit has visited every queued cell, and a round over cells all visited already visits nothing new |
| FieldCost.SearchFrom | src/flowfields/fields/cost_field.rs:151-185 | the cells the whole search enqueues are passable, were not visited before and are not the first queued cell |
| FieldCost.PassableCosts | src/flowfields/fields/cost_field.rs:172-174 | only cells whose cost is not 255 are recorded, so every recorded cost lies in `0..254` |
| FieldCost.DistanceBounds | src/flowfields/fields/cost_field.rs:93-106 | every distance lies in `0..254` |
| FieldCost.DistanceBelowCostBound | src/flowfields/fields/cost_field.rs:102-105 | because the record starts with `0`, between two different cells a field whose passable cells cost at most `m` yields a distance below `m` |
| FieldCost.DefaultFieldDistanceIsZero | src/flowfields/fields/cost_field.rs:53-57 | on the default field two different connected cells are at distance 0 |
| FieldCost.ScanDistanceFacts | src/flowfields/fields/cost_field.rs:160-178 | a scan tied to `ScanAt` and its cost record means: a hit only next to a reached cell, otherwise every neighbour impassable, visited or enqueued; new cells reached and unvisited; the record grows by costs below 255 |
| FieldCost.DistanceCell | src/flowfields/fields/cost_field.rs:160-178 | one queued cell: it becomes visited, the round continues exactly as `RoundAt` says, the step record stays the given one followed by the costs of the next queue, and a miss keeps the frontier invariant |
| FieldCost.DistanceRoundStep | src/flowfields/fields/cost_field.rs:160-178 | the scan of the queued cell at `i` either ends the round with a hit or continues it from `i + 1` |
| FieldCost.StepsJoin | src/flowfields/fields/cost_field.rs:174 | costs pushed in two stretches make the costs of the whole next queue |
| FieldCost.EnclosedTargetHasNoDistance | src/flowfields/fields/cost_field.rs:82-106 | a target walled in by 255 on every orthogonal side is not connected to a distinct source that is not next to it |
| Portal.PortalsForSide | src/flowfields/portal/portals.rs:66-80 | a list exactly for the four sides; any other ordinal is the source's panic |
| Portal.WithSide | src/flowfields/portal/portals.rs:81-94 | writing through the side's list replaces that list and leaves the other three sides alone; other ordinals panic |
| Portal.Clear | src/flowfields/portal/portals.rs:95-99 | every side ends with no portals |
| Portal.PortalsBySides | src/flowfields/portal/portals.rs:49-53 | portals are determined by their four side lists |
| Portal.BoundaryCell | src/flowfields/portal/portals.rs:143-341 | the cell at a position along a side: row 0 for North, column 9 for East, row 9 for South, column 0 for West |
| Portal.OnSideIsBoundaryCell | src/flowfields/portal/portals.rs:143-341 | every cell on a side is the boundary cell at its own position |
| Portal.Cells | src/flowfields/portal/portals.rs:143-341 | the boundary cells at the given positions, in order |
| Portal.Openings | src/flowfields/portal/portals.rs:150-161 | ten flags, one per position of the side, each true exactly when both this cell and the facing cell of the neighbour are not 255 |
| Portal.OpeningsSymmetric | src/flowfields/portal/portals.rs:143-341 | the boundary looks the same from the neighbour: swapping the fields and inverting the side keeps every flag |
| Portal.Runs | src/flowfields/portal/portals.rs:150-181 | every run of open positions lies inside the side and is not empty |
| Portal.RunsMeaning | src/flowfields/portal/portals.rs:150-181 | the runs are maximal, in increasing order with a closed position between any two, and every open position lies in one |
| Portal.RunStartAt | src/flowfields/portal/portals.rs:150-181 | the start of the run reaching a position is not after it |
| Portal.RunEndAt | src/flowfields/portal/portals.rs:150-181 | the end of the run continuing from a position is after it and within the side |
| Portal.MaximalRunAt | src/flowfields/portal/portals.rs:150-181 | a maximal run is determined by any one of its positions |
| Portal.MaximalRunsAgree | src/flowfields/portal/portals.rs:150-181 | two maximal runs sharing a position are the same run |
| Portal.RunsComplete | src/flowfields/portal/portals.rs:150-181 | every maximal run is listed, so the runs are exactly the maximal runs |
| Portal.Positions | src/flowfields/portal/portals.rs:167-170 | the positions of a run, in increasing order |
| Portal.PositionsSum | src/flowfields/portal/portals.rs:167-170 | twice the sum of the positions `a .. b - 1` is `(b - a) * (a + b - 1)` |
| Portal.MeanOfPositions | src/flowfields/portal/portals.rs:167-172 | the integer mean of a run's positions is its middle position rounded down |
| Portal.Midpoint | src/flowfields/portal/portals.rs:167-172 | the portal position of a run is its middle rounded down and lies in the run |
| Portal.SidePortalsMeaning | src/flowfields/portal/portals.rs:143-183 | one portal per maximal run: the `k`-th lies on the side at the middle of the `k`-th run, at an open position, in increasing order |
| Portal.FacingSidesAgree | src/flowfields/portal/portals.rs:100-121 | the neighbour sees the same number of portals at the same positions on its facing side, as the comment of `recalculate_portals` requires |
| Portal.RunPortal | src/flowfields/portal/portals.rs:164-176 | the portal of a run is the boundary cell at its midpoint |
| Portal.ScanSide | src/flowfields/portal/portals.rs:143-183 | the scan of one side gives exactly the one-portal-per-run list of that boundary |
| Portal.ListedNeighbour | src/flowfields/portal/portals.rs:141-143 | a sector found for a side is paired with that side in the list |
| Portal.ListedNeighbourMeaning | src/flowfields/portal/portals.rs:141-143 | with distinct sides, the sector found for a side is exactly the one paired with it |
| Portal.ListedNeighbourIsAcross | src/flowfields/portal/portals.rs:131-143 | for a sector of the map, the sector listed for a side is the one across it |
| Portal.RecalculatePortals | src/flowfields/portal/portals.rs:122-342 | the recalculated portals, `None` where the source panics on a missing cost field |
| Portal.RecalculatedSides | src/flowfields/portal/portals.rs:122-342 | each side facing another sector gets the portals of that boundary, every other side none |
| Portal.RecalculationSucceeds | src/flowfields/portal/portals.rs:136-147 | recalculation succeeds exactly when the sector and every neighbour across a side have cost fields |
| Portal.AllOpen | src/flowfields/portal/portals.rs:150-161 | `n` open positions |
| Portal.RunsOpenTail | src/flowfields/portal/portals.rs:150-181 | open positions after a closed one form one new run |
| Portal.DefaultSidesHaveOnePortal | src/flowfields/portal/portals.rs:616-645 | with no walls every side facing another sector has one portal, at position 4 |
| Portal.OpenFieldsOpenings | src/flowfields/portal/portals.rs:150-161 | fields with no 255 leave every position open |
| Portal.RunsAllOpen | src/flowfields/portal/portals.rs:150-181 | a fully open side is one run |
| Portal.RebuildingExample | src/flowfields/portal/portals.rs:617-692 | the unit test `verify_rebuilding`: a wall at (4, 9) of sector (0, 0) gives its south side portals (1, 9) and (7, 9) and sector (0, 1) north portals (1, 0) and (7, 0) |
| Portal.RecalculatedFacing | src/flowfields/portal/portals.rs:122-342 | where every sector has a cost field, recalculation succeeds and a side facing `n` gets the portals of that boundary |
| Portal.WallSplitsBoundary | src/flowfields/portal/portals.rs:655-691 | one wall at position 4 splits the boundary into two portals seen alike from both sectors |
| Portal.BoundaryOrdinals | src/flowfields/portal/portals.rs:352-353 | the sides a cell lies on, each orthogonal, all of them, no repeats (a corner lies on two) |
| Portal.FirstSideOf | src/flowfields/portal/portals.rs:360-366 | the side of the first entry listing the neighbour, or none when no entry lists it |
| Portal.Retain | src/flowfields/portal/portals.rs:362 | all kept entries equal `o`, and some are kept exactly when `o` was present |
| Portal.ExpansionSide | src/flowfields/portal/portals.rs:352-372 | a side to walk is orthogonal and the portal lies on it; `None` where the source panics |
| Portal.Backward | src/flowfields/portal/portals.rs:383-401 | the walk down visits only positions below the start |
| Portal.Forward | src/flowfields/portal/portals.rs:402-419 | the walk up visits only positions above the start, within the side |
| Portal.ExpandPortalIntoGoals | src/flowfields/portal/portals.rs:344-526 | the goals are those of the specification `ExpandedGoals`: `None` on a panic, else the portal followed by both walks |
| Portal.BoundaryToWalk | src/flowfields/portal/portals.rs:352-372 | the side the expansion walks, as `ExpansionSide` |
| Portal.WalkBackward | src/flowfields/portal/portals.rs:383-401 | the goals gain the cells of the downward walk, in walking order |
| Portal.WalkForward | src/flowfields/portal/portals.rs:402-419 | the goals gain the cells of the upward walk, in walking order |
| Portal.Descending | src/flowfields/portal/portals.rs:383-401 | positions `b - 1` down to `a` |
| Portal.RunStartAtMeaning | src/flowfields/portal/portals.rs:383-401 | walking down stops at a closed position or position 0 and crosses only open ones |
| Portal.RunEndAtMeaning | src/flowfields/portal/portals.rs:402-419 | walking up stops at a closed position or the end and crosses only open ones |
| Portal.RunAround | src/flowfields/portal/portals.rs:383-419 | an open position lies in the maximal run the two walks delimit |
| Portal.BackwardInRun | src/flowfields/portal/portals.rs:383-401 | walking down from a position of a maximal run meets the rest of the run below it, nearest first |
| Portal.ForwardInRun | src/flowfields/portal/portals.rs:402-419 | walking up from a position of a maximal run meets the rest of the run above it, nearest first |
| Portal.ExpansionCoversRun | src/flowfields/portal/portals.rs:344-526 | expanding an open portal gives its whole maximal run, each cell once and nothing else, the portal first |
| Portal.WalksInRun | src/flowfields/portal/portals.rs:376-419 | the portal and the two walks together are the goals of its run |
| Portal.RunGoalsMeaning | src/flowfields/portal/portals.rs:376-419 | the goals of a run are its cells, each once |
| Portal.PortalExpandsToItsRun | src/flowfields/portal/portals.rs:122-526 | a portal placed by recalculation expands into exactly the cells of the run it stands for |
| Portal.NonCornerSide | src/flowfields/portal/portals.rs:352-372 | a portal off the corners is walked along its own side whatever the neighbour |
| Portal.ExpandedGoalsOn | src/flowfields/portal/portals.rs:373-525 | once the side is known and both fields exist, the goals are the portal followed by the downward and the upward walk |
| Portal.ExpandNorthExample | src/flowfields/portal/portals.rs:693-711 | the unit test `expand_portal_goals_north`: the whole north side, walking left and then right from (4, 0) |
| Portal.ExpandShortExample | src/flowfields/portal/portals.rs:769-812 | the unit tests `expand_portal_goals_short_local` and `_short_adjacent`: a wall at (3, 0), or at (3, 9) next door, cuts the expansion to (1, 0), (0, 0), (2, 0) |
| SectorCost.Stepped | src/flowfields/sectors/sector_cost.rs:167-170 | the `i`-th cell from a cell towards an orthogonal ordinal is offset by `i` times that ordinal's unit step, and no cell is produced for a diagonal |
| SectorCost.Raised | src/flowfields/sectors/sector_cost.rs:480-488 | writing 255 into a set of marks keeps every sector and changes exactly the marked cells to 255 |
| SectorCost.ImpassableCellsMeaning | src/flowfields/sectors/sector_cost.rs:150-160 | the cells scaling starts from are exactly the cells of cost 255 |
| SectorCost.SingleWall | src/flowfields/sectors/sector_cost.rs:150-160 | a default field with one wall yields that wall as its only impassable cell |
| SectorCost.DefaultFieldHasNoWalls | src/flowfields/sectors/sector_cost.rs:150-160 | a default field yields no impassable cell |
| SectorCost.RaisedUnion | src/flowfields/sectors/sector_cost.rs:480-488 | raising one set of marks and then another equals raising their union, so the order of the writes is irrelevant |
| SectorCost.ApplyMarksRaises | src/flowfields/sectors/sector_cost.rs:480-488 | the mark loop succeeds exactly when every marked sector has a scaled field, and then equals raising the set of marks |
| SectorCost.ScalingOnlyCloses | src/flowfields/sectors/sector_cost.rs:117-489 | for an actor scale other than 1, scaling keeps the set of sectors and each cell either keeps its cost or becomes 255, never lower |
| SectorCost.RayMarks | src/flowfields/sectors/sector_cost.rs:165-182 | the first `n` cells of a walk inside one sector, nearest first, each the stepped cell of its index |
| SectorCost.WalkClosesGap | src/flowfields/sectors/sector_cost.rs:165-182 | when the `k`-th cell of a walk is its first wall and `k` is within the actor scale, the walk marks exactly the `k` cells up to and including that wall |
| SectorCost.WalkThroughClearRay | src/flowfields/sectors/sector_cost.rs:165-182 | when all `actor_scale` cells of a walk are inside the sector and passable, the walk marks nothing |
| SectorCost.SectorMarksWithin | src/flowfields/sectors/sector_cost.rs:183-240 | every cell marked while scaling a sector lies in a sector that has a baseline field |
| SectorCost.ScalingSucceedsBelowSectorWidth | src/flowfields/sectors/sector_cost.rs:183-240 | for an actor narrower than a sector, on a map whose every sector has baseline and scaled fields, scaling never panics |
| SectorCost.NorthEdgeShiftPanics | src/flowfields/sectors/sector_cost.rs:186-198 | in the top row of sectors, listing two or more sectors to the north subtracts below row 0, which is an overflow panic |
| SectorCost.LargeActorPanicsAtNorthEdge | src/flowfields/sectors/sector_cost.rs:183-198 | for an actor scale of 10 or more, a wall in the top row of sectors with a clear way north makes scaling panic |
| SectorCost.ClearShortWalk | src/flowfields/sectors/sector_cost.rs:1051-1076 | for an actor of scale 2, a walk whose next two cells are passable marks nothing, which leaves a gap of two open |
| SectorCost.EastEdgeWall | src/flowfields/sectors/sector_cost.rs:244-320 | a wall at (9, 4) of sector (0, 0) of a 2 x 2 sector map marks nothing: its way east leaves the sector at once and no east neighbour is listed, so its north, east, south and west walks all end with nothing walked |
| SectorCost.WestCrossingWalk | src/flowfields/sectors/sector_cost.rs:1311-1331 | the west walk from (1, 4) of sector (1, 0) crosses into sector (0, 0) and marks (0, 4) there and the wall at (9, 4) of the neighbour |
| SectorCost.CrossBoundaryWall | src/flowfields/sectors/sector_cost.rs:1311-1331 | with walls at (9, 4) of sector (0, 0) and (1, 4) of sector (1, 0), scaling sector (1, 0) marks exactly those two cells across the boundary |
| SectorCost.CrossBoundaryScaled | src/flowfields/sectors/sector_cost.rs:1311-1331 | scaling sector (1, 0) in that map raises exactly (0, 4) of sector (1, 0) and (9, 4) of sector (0, 0) |
| SectorCost.MarkedSectorRaises | src/flowfields/sectors/sector_cost.rs:163-488 | when all marks of a sector fall in scaled fields, scaling it raises exactly those marks |
| SectorCost.EastCrossBoundary | src/flowfields/sectors/sector_cost.rs:1311-1331 | the `scale_east_cross_coundary` scenario: the first wall changes nothing and the second closes the one-cell gap, so (0, 4) of sector (1, 0) becomes 255 |
| SectorCost.IsolatedWallNotScaled | src/flowfields/sectors/sector_cost.rs:81-97 | a lone wall written by `set_field_cell_value` for an actor of scale 2 reaches the baseline while the scaled field keeps cost 1 at that cell |
| SectorCost.SameEdgeProperties | src/flowfields/sectors/sector_cost.rs:894-901 | two mesh edges are equal when their ends match in either order, and this equality is reflexive, symmetric and transitive |
| SectorFields.ImpassableIndices | src/flowfields/sectors/sector_cost.rs:150-160 | the nested column and row loops collect exactly the impassable cells of the field, in column-major order |
| SectorFields.NeighbourList | src/flowfields/sectors/sector_cost.rs:184-200 | the loop over `0 ..= actor_scale / 10` lists the existing sectors next to each shifted sector in factor order, or reports the panic of an underflowing shift |
| SectorFields.CrossOne | src/flowfields/sectors/sector_cost.rs:211-237 | the `'inner` loop through one neighbouring sector ends as the walk through that sector specifies: a wall or the world's edge on the last neighbour marks the walked cells, a missing baseline panics, otherwise the walked cells pass on |
| SectorFields.CrossAll | src/flowfields/sectors/sector_cost.rs:206-238 | the loop over the neighbouring sectors, each `FIELD_RESOLUTION` cells further from the start, ends as the walk through all of them specifies |
| SectorFields.WalkCells | src/flowfields/sectors/sector_cost.rs:165-242 | one `'ord` loop from an impassable cell marks exactly what the walk towards its direction marks, and panics exactly when that walk does |
| SectorFields.WalkAround | src/flowfields/sectors/sector_cost.rs:164-479 | the four walks from one impassable cell, north, east, south and west, mark the concatenation of their marks, and panic when any of them does |
| SectorFields.CollectMarks | src/flowfields/sectors/sector_cost.rs:161-479 | the loop over the impassable cells gathers exactly the marks of scaling the sector |
| SectorFields.SectorCostFields.Empty | src/flowfields/sectors/sector_cost.rs:19-25 | the default value holds no sector in either map |
| SectorFields.SectorCostFields.constructor | src/flowfields/sectors/sector_cost.rs:30-43 | `new` puts a default field in every sector of the map and no other, with the scaled map equal to the baseline and consistent with it |
| SectorFields.SectorCostFields.NewWithCost | src/flowfields/sectors/sector_cost.rs:45-58 | the field of one cost in every sector of the map; scaling succeeds exactly when the actor scale is 1 or no sector's scaling panics, and then the maps are consistent |
| SectorFields.SectorCostFields.InsertGrid | src/flowfields/sectors/sector_cost.rs:32-40 | the nested loops over sector columns and rows insert the field for exactly the sectors of the map |
| SectorFields.SectorCostFields.SetFieldCellValue | src/flowfields/sectors/sector_cost.rs:81-97 | a sector without a field changes nothing; otherwise the baseline cell takes the value and the scaled fields become those of scaling that one sector, failing exactly when that panics |
| SectorFields.SectorCostFields.SetFieldCellValueRescaled | src/flowfields/sectors/sector_cost.rs:81-97 | the corrected update: the same baseline change followed by scaling the whole baseline, so the scaled fields are again those the baseline determines |
| SectorFields.SectorCostFields.ScaleAllCostfields | src/flowfields/sectors/sector_cost.rs:101-112 | the baseline is copied over the scaled map and every sector scaled: success exactly when no sector panics, and then the scaled map is the baseline with every mark of every sector raised, whatever the order of the sectors |
| SectorFields.SectorCostFields.CopyBaseline | src/flowfields/sectors/sector_cost.rs:102-108 | the first loop replaces each scaled field by its baseline field and keeps the other scaled fields |
| SectorFields.SectorCostFields.ScaleEach | src/flowfields/sectors/sector_cost.rs:109-111 | the second loop scales every sector; with an actor scale other than 1 it raises the union of all their marks |
| SectorFields.SectorCostFields.ScaleOne | src/flowfields/sectors/sector_cost.rs:109-111 | one round of the loop leaves the baseline alone and extends the scaled sectors by one, or fails only when the actor scale is not 1 and some baseline field cannot be scaled |
| SectorFields.SectorCostFields.ScaledSectorRaises | src/flowfields/sectors/sector_cost.rs:109-111 | scaling one more sector succeeds exactly when its walks do not panic, and then adds its marks to those already raised |
| SectorFields.SectorCostFields.ScaleCostfield | src/flowfields/sectors/sector_cost.rs:117-489 | the baseline is untouched; the scaled fields become those scaling the sector specifies, and the method fails exactly where the source panics |
| SectorFields.SectorCostFields.MarkImpassable | src/flowfields/sectors/sector_cost.rs:480-488 | the mark loop sets every marked cell of the scaled fields to 255, and fails exactly when a marked sector has no scaled field |
| SectorFields.ConsistentKeepsWalls | src/flowfields/sectors/sector_cost.rs:21-24 | in scaled fields consistent with the baseline, every baseline wall is a wall of the scaled fields too, as the documented purpose of the scaled map promises |
| SectorPortalsMap.UpdatedSectorsMeaning | src/flowfields/sectors/sector_portals.rs:46-49 | the sectors `update_portals` recalculates are exactly the changed sector and the sectors across its sides |
| SectorPortalsMap.RecalculationIsLocal | src/flowfields/sectors/sector_portals.rs:38-39 | the portals recalculated for a sector depend only on its own cost field and those of the neighbours it reads |
| SectorPortalsMap.UpdateRestoresCurrency | src/flowfields/sectors/sector_portals.rs:38-58 | when the portals matched the cost fields and only the changed sector's field has since changed, recalculating it and its neighbours makes every sector's portals match again |
| SectorPortalsMap.SectorPortals.constructor | src/flowfields/sectors/sector_portals.rs:19-29 | `new` holds empty portals for exactly the sectors of the map |
| SectorPortalsMap.SectorPortals.UpdatePortals | src/flowfields/sectors/sector_portals.rs:40-58 | the same sectors keep portals; the update fails exactly where an `unwrap` or a recalculation panics, and otherwise the updated sectors hold their recalculated portals and all others keep theirs |
| SectorPortalsMap.SectorPortals.RecalculateEach | src/flowfields/sectors/sector_portals.rs:50-56 | the loop over the listed sectors fails exactly when one of them lacks portals or cannot be recalculated, and otherwise recalculates exactly the listed sectors |
| Flow.ConvertOrdinalToBitsDir | src/flowfields/fields/flow_field.rs:39-51 | every direction code lies in the low nibble, leaving the flag bits free |
| Flow.BitsDirInjective | src/flowfields/fields/flow_field.rs:9-26 | distinct directions have distinct codes |
| Flow.OrdinalFromBits | src/flowfields/fields/flow_field.rs:264-279 | a decoded direction is one whose code equals the low nibble of the value; `None` where the source panics |
| Flow.OrdinalBitsRoundTrip | src/flowfields/fields/flow_field.rs:264-279 | a direction code combined with any flags decodes back to that direction |
| Flow.OrdinalFromBitsDomain | src/flowfields/fields/flow_field.rs:264-279 | decoding ignores the flag nibble, succeeds exactly on the nine direction codes, and fails on the default `0b1111` |
| Flow.HasLineOfSightMeaning | src/flowfields/fields/flow_field.rs:258-262 | a cell has line of sight exactly when the LOS flag is set and none of the other three flags is |
| Flow.DefaultFlowField | src/flowfields/fields/flow_field.rs:57-61 | every cell of the default field reads `BITS_DEFAULT` |
| Flow.GetFieldCellValue | src/flowfields/fields/flow_field.rs:69-74 | a value exactly for a column and row below 10; `None` where the source panics |
| Flow.SetFieldCellValue | src/flowfields/fields/flow_field.rs:76-81 | succeeds exactly inside the field; the written cell then reads the value and every other cell keeps its value |
| Flow.FirstCheapest | src/flowfields/fields/flow_field.rs:97-104 | a chosen position is in range and costs less than the bound |
| Flow.FirstCheapestMeaning | src/flowfields/fields/flow_field.rs:97-104 | the running minimum with strict `<` picks nothing exactly when no cost is below the bound, and otherwise the first of the lowest costs |
| Flow.FirstCheapestUnique | src/flowfields/fields/flow_field.rs:97-104 | conversely, the first position of the lowest cost below the bound is the one the loop picks |
| Flow.Cheapest | src/flowfields/fields/flow_field.rs:129-138 | the neighbour loop with the running cheapest value computes the first of the cheapest costs below `u16::MAX` |
| Flow.PortalGoalNeighbourCosts | src/flowfields/fields/flow_field.rs:155-237 | a lookup exactly for the four sides (the source panics otherwise), holding one to three entries, the orthogonal one first |
| Flow.PortalGoalNeighbourCostsMeaning | src/flowfields/fields/flow_field.rs:155-237 | for a goal on the boundary, the entries are exactly the cells of the previous sector that touch the goal across that boundary, each with its integration cost |
| Flow.EntryCosts | src/flowfields/fields/flow_field.rs:99-104 | the costs of the looked-up entries, in order |
| Flow.NeighbourCosts | src/flowfields/fields/flow_field.rs:131-137 | the integration costs of the cell's neighbours, in the order `get_all_cell_neighbours` lists them |
| Flow.Calculate | src/flowfields/fields/flow_field.rs:85-152 | `calculate` produces exactly the flow field the two phases specify, and fails exactly where they panic |
| Flow.SeedPortalGoalsLoop | src/flowfields/fields/flow_field.rs:91-113 | the loop over the portal goals fails exactly when there are goals and the side is not orthogonal, and otherwise writes each goal's portal-goal code |
| Flow.FlowPass | src/flowfields/fields/flow_field.rs:119-151 | the nested loops of the second phase apply the one-cell rule to every cell of the seeded field |
| Flow.CellStep | src/flowfields/fields/flow_field.rs:121-148 | one cell of the second phase, with its branches and neighbour loop, computes the one-cell rule |
| Flow.PortalGoalCodeMeaning | src/flowfields/fields/flow_field.rs:93-112 | a portal goal gets a code exactly when some looked-up cell costs less than `u16::MAX`; the code carries the portal-goal flag and decodes to the direction of the first cheapest entry |
| Flow.EntriesCodeMeaning | src/flowfields/fields/flow_field.rs:93-112 | looked-up entries give a code exactly when one costs less than `u16::MAX`; the code is the portal-goal flag with the direction of the first entry of lowest cost |
| Flow.PortalGoalCodeBits | src/flowfields/fields/flow_field.rs:107-110 | a direction marked as a portal goal keeps that flag in the high nibble and decodes back to the direction |
| Flow.SeedPortalGoalsAt | src/flowfields/fields/flow_field.rs:91-113 | after the first phase every goal with a code holds it and every other cell keeps its value, whatever the order or repetition of the goals |
| Flow.CalculatedGoals | src/flowfields/fields/flow_field.rs:91-121 | without a previous sector the first goal holds the goal flag; with one, every portal goal with a code holds it; the second phase keeps those cells |
| Flow.CalculatedSucceeds | src/flowfields/fields/flow_field.rs:85-152 | `calculate` panics exactly when it has no previous sector and no goal, or a previous sector on a side that is not orthogonal while there are goals |
| Flow.CellFlowKept | src/flowfields/fields/flow_field.rs:121-148 | a cell already set is kept; an unset cell of cost `u16::MAX` becomes impassable; one of cost 0, or one with no neighbour cheaper than `u16::MAX`, stays unset |
| Flow.CellFlowPoints | src/flowfields/fields/flow_field.rs:126-147 | any other unset cell with a neighbour below `u16::MAX` is flagged pathable and points at the first of its cheapest neighbours |
| Flow.CheapestNeighbour | src/flowfields/fields/flow_field.rs:129-137 | with some neighbour below `u16::MAX`, the chosen neighbour is strictly cheaper than all earlier ones and no dearer than any later one |
| Flow.PathableCode | src/flowfields/fields/flow_field.rs:142-145 | a direction marked pathable keeps that flag in the high nibble and decodes back to the direction |
| Flow.CellFlowAt | src/flowfields/fields/flow_field.rs:139-147 | when the neighbour loop picks a neighbour, the cell holds the pathable flag with the direction of that neighbour seen from the cell |
| Flow.SouthGoalCode | src/flowfields/fields/flow_field.rs:198-215 | a goal on the southern edge, looking into a southern sector whose cells are their distance from its own southern edge, is a portal goal pointing south |
| Flow.SouthIsCheapest | src/flowfields/fields/flow_field.rs:129-138 | above the southern edge of that field the southern neighbour is the first of the cheapest |
| Flow.SouthCellFlow | src/flowfields/fields/flow_field.rs:126-147 | every cell above the southern edge points south and is pathable |
| Flow.CalculateFlowTargetSouth | src/flowfields/fields/flow_field.rs:327-364 | the `calculate_flow_target_south` case: every goal is a portal goal pointing south and every other cell is pathable pointing south, so no default value is left |
| Flow.WestGoalCode | src/flowfields/fields/flow_field.rs:216-233 | a goal on the western edge, looking into a western sector whose cells are their distance from its own western edge, is a portal goal pointing west |
| Flow.WestIsCheapest | src/flowfields/fields/flow_field.rs:129-138 | east of the western edge of that field the western neighbour is the first of the cheapest |
| Flow.WestCellFlow | src/flowfields/fields/flow_field.rs:126-147 | every cell east of the western edge points west and is pathable |
| Flow.CalculateFlowTargetWest | src/flowfields/fields/flow_field.rs:365-402 | the `calculate_flow_target_west` case: every goal is a portal goal pointing west and every other cell is pathable pointing west |
| FieldCache.Inserted | src/flowfields/fields/mod.rs:38-41 | after an insertion the key holds the new field, replacing any earlier one, and every other key is as before |
| FieldCache.Removed | src/flowfields/fields/mod.rs:42-45 | after a removal the key is absent, whether or not it was present, and every other key is as before |
| FieldCache.LastChangeOf | src/flowfields/fields/mod.rs:38-45 | the position of the last insertion or removal of a key, with no later change to it; `None` exactly when none touches it |
| FieldCache.ReplayFromEmpty | src/flowfields/fields/mod.rs:29-45 | from an empty cache, a key is present after a series of insertions and removals exactly when its last change was an insertion, and then it holds that insertion's field |
| FieldCache.NeverInsertedIsAbsent | src/flowfields/fields/mod.rs:34-37 | a key that was never inserted is absent from a cache that started empty, so `get_field` returns `None` for it |
| FieldCache.FlowFieldCache.constructor | src/flowfields/fields/mod.rs:29-31 | the default cache is empty |
| FieldCache.FlowFieldCache.GetField | src/flowfields/fields/mod.rs:34-37 | the cached field exactly when the cache has a record for the key, and `None` otherwise |
| FieldCache.FlowFieldCache.InsertField | src/flowfields/fields/mod.rs:38-41 | the cache becomes the inserted map, and the key then returns the new field |
| FieldCache.FlowFieldCache.RemoveField | src/flowfields/fields/mod.rs:42-45 | the cache becomes the removed map, and the key then returns `None` |
| Integration.CostBits | src/flowfields/fields/integration_field.rs:191-194 | the cost half of a value is at most `u16::MAX` and at most the value, and a value without flags is all cost |
| Integration.BareHasNoFlags | src/flowfields/fields/integration_field.rs:179-194 | a value no larger than `u16::MAX` carries none of the six flags |
| Integration.FlagsPartition | src/flowfields/fields/integration_field.rs:179-194 | the six flags are pairwise disjoint single bits outside the cost half, and the cost and flag filters split the 32 bits |
| Integration.DefaultField | src/flowfields/fields/integration_field.rs:206-213 | the default field holds `u16::MAX` in every cell and records no corner |
| Integration.SetValue | src/flowfields/fields/integration_field.rs:225-227 | the written cell reads the new value, every other cell and the corner list are unchanged |
| Integration.New | src/flowfields/fields/integration_field.rs:233-247 | the nested loops of `new` compute the new field: the default, every 255 cell marked impassable, then the goal written |
| Integration.NewFieldMeaning | src/flowfields/fields/integration_field.rs:229-247 | in a new field the goal holds the goal flag at cost 0, a 255 cell holds the impassable flag at cost `u16::MAX` and cannot be written, and every other cell is a writable `u16::MAX` |
| Integration.WeightSumLowers | src/flowfields/fields/integration_field.rs:590-618 | lowering some cells' weights, and raising none, lowers the sum of weights, strictly when one of them drops |
| Integration.LowersCosts | src/flowfields/fields/integration_field.rs:603-611 | under the write discipline of `process_neighbours` no cell's cost rises |
| Integration.RelaxedKept | src/flowfields/fields/integration_field.rs:603-611 | once every neighbour of a queue entry costs at most a step from it, further lowering keeps that so |
| Integration.OrthogonalNeighboursDistinct | src/flowfields/utilities.rs:29-45 | the orthogonal neighbours of a cell are distinct cells |
| Integration.EntryScanStep | src/flowfields/fields/integration_field.rs:600-613 | checking one more neighbour, and writing it when the step from the queue entry is cheaper, keeps the invariant of the inner loop |
| Integration.RelaxEntry | src/flowfields/fields/integration_field.rs:597-614 | relaxing one queue entry only lowers writable cells; afterwards each writable neighbour costs at most its cell cost plus the entry's cost; each changed cell is a neighbour holding exactly that sum and is queued with it |
| Integration.RoundStep | src/flowfields/fields/integration_field.rs:597-614 | relaxing queue entry `k` extends the pass invariant from the first `k` entries to the first `k + 1` |
| Integration.Round | src/flowfields/fields/integration_field.rs:595-614 | after one pass every queue entry is relaxed, and every lowered cell is in the next queue with a parent entry that justifies its cost |
| Integration.WavefrontCompose | src/flowfields/fields/integration_field.rs:615-617 | a pass followed by the wavefront from the queue it built is the wavefront from the original queue |
| Integration.ProcessNeighbours | src/flowfields/fields/integration_field.rs:590-618 | the recursion ends, and afterwards every queued and every lowered cell is relaxed: no writable neighbour could be made cheaper, and each lowered cell's cost is a step from a parent |
| Integration.AddLosCorner | src/flowfields/fields/integration_field.rs:253-255 | the corner is appended after the recorded corners and the field is unchanged |
| Integration.CornerQueue | src/flowfields/fields/integration_field.rs:268-271 | the starting queue pairs each recorded corner, in order, with its current value |
| Integration.CalculateField | src/flowfields/fields/integration_field.rs:266-273 | the corners are kept and the field is the cost wavefront from the corner queue |
| Integration.StepToward | src/flowfields/fields/integration_field.rs:700-728 | a cell other than the goal has an orthogonal neighbour one step nearer the goal |
| Integration.UniformLowerBound | src/flowfields/fields/integration_field.rs:700-728 | on a uniform cost field no cell of the wavefront from the goal costs less than its Manhattan distance from the goal |
| Integration.UniformRelaxed | src/flowfields/fields/integration_field.rs:700-728 | on that wavefront a cell costs at most one more than an open neighbour that is the goal or was lowered |
| Integration.UniformGoal | src/flowfields/fields/integration_field.rs:700-728 | the goal keeps cost 0 |
| Integration.UniformUpperBound | src/flowfields/fields/integration_field.rs:700-728 | on that wavefront no cell costs more than its Manhattan distance from the goal |
| Integration.UniformFieldIsManhattan | src/flowfields/fields/integration_field.rs:700-728 | the `basic_field` case: a new field on a uniform cost field, with the goal as its only corner, costs exactly each cell's Manhattan distance from the goal |
| Integration.BasicFieldExample | src/flowfields/fields/integration_field.rs:715-727 | entries of the `basic_field` table for goal (4, 4): (0, 0) costs 8, (0, 4) costs 4, (0, 9) costs 9, (4, 4) costs 0 and (9, 9) costs 10 |
| Integration.LosValueFlags | src/flowfields/fields/integration_field.rs:342-347 | a ring cost with the line-of-sight flag keeps that cost and carries only that flag |
| Integration.CornerValueFlags | src/flowfields/fields/integration_field.rs:458-467 | a corner value keeps its cost and carries the wave-blocked and corner flags, and neither line of sight nor impassable |
| Integration.LosKeepsMeaning | src/flowfields/fields/integration_field.rs:279-471 | under the writes of the line-of-sight pass impassable and wave-blocked cells are never changed, a stopped cell stays stopped, and every change lowers the cell's weight |
| Integration.LosKeepsSettles | src/flowfields/fields/integration_field.rs:288-347 | a cell the pass writes is stopped afterwards, and a stopped cell written again is a corner, no longer in sight |
| Integration.LosKeepsTransitive | src/flowfields/fields/integration_field.rs:353-355 | two runs of line-of-sight writes compose into one, with the union of their ring-cost ranges |
| Integration.LosPotentialLowers | src/flowfields/fields/integration_field.rs:353-355 | a run of writes never raises the sum of weights, and lowers it strictly when it changes a cell, which is why the recursion ends |
| Integration.CheckLosCornerPropagation | src/flowfields/fields/integration_field.rs:473-500 | an end cell exactly when the corner lies in the same column or row as the goal |
| Integration.Farthest | src/flowfields/fields/integration_field.rs:473-500 | the reference walk from a cell towards an orthogonal direction ends at a cell with no neighbour that way, on the field's edge |
| Integration.StraightPropagationEndsAtEdge | src/flowfields/fields/integration_field.rs:481-500 | for a corner straight on from the goal, the computed end is the boundary cell reached by walking on from the corner away from the goal |
| Integration.StraightPropagationExamples | src/flowfields/fields/integration_field.rs:625-656 | the four straight-line tests: (5, 3) from (4, 3) ends at (9, 3), (4, 3) from (5, 3) at (0, 3), (4, 5) from (4, 3) at (4, 9), and (4, 3) from (4, 5) at (4, 0) |
| Integration.LineStop | src/flowfields/fields/integration_field.rs:376-457 | the first position at or after `i` where the blocked line stops, at an impassable cell or a diagonal squeeze between two impassable cells, with no stop before it |
| Integration.LosKeepsStops | src/flowfields/fields/integration_field.rs:376-457 | the writes keep which cells are impassable, so the stops of a blocked line do not move |
| Integration.LineMarksCorner | src/flowfields/fields/integration_field.rs:458-467 | a line cell not yet wave-blocked becomes a corner costing `wavefront_cost + 1 + i` with both flags |
| Integration.LineMarksSkip | src/flowfields/fields/integration_field.rs:458 | a line cell already wave-blocked is left as it is |
| Integration.BlockCorner | src/flowfields/fields/integration_field.rs:458-467 | writing a corner onto a line cell keeps the loop invariant of `extend_los_corner` for one more cell |
| Integration.BlockLine | src/flowfields/fields/integration_field.rs:376-468 | the loop over the line cells up to where the line stops makes only corner writes and marks every cell before the stop wave-blocked; the first occurrence of the cell at position `j` that was not already wave-blocked holds exactly cost `wavefront_cost + 1 + j` with the wave-blocked and corner flags, and an already wave-blocked cell keeps its value |
| Integration.ExtendLosCorner | src/flowfields/fields/integration_field.rs:362-471 | only corner writes: every changed cell lies on the corner's blocked line and costs between `wavefront_cost + 1` and `wavefront_cost + 10`; every cell of that line ends up wave-blocked; and the first occurrence of the cell at position `j` holds exactly `wavefront_cost + 1 + j` with both flags, unless it was wave-blocked already and is then unchanged |
| Integration.LosKeepsCornersOnly | src/flowfields/fields/integration_field.rs:362-471 | a run of corner writes moves the line-of-sight wavefront onto no cell |
| Integration.LosMovedCompose | src/flowfields/fields/integration_field.rs:285-347 | the cells two runs of writes move the wavefront onto are the cells of the first run followed by those of the second |
| Integration.StoppedKept | src/flowfields/fields/integration_field.rs:279-356 | cells the wavefront stops at stay stopped under every run of writes |
| Integration.LosWriteStep | src/flowfields/fields/integration_field.rs:342-347 | giving an open cell the ring cost with the line-of-sight flag is one write of the pass, moves the wavefront onto that cell, and stops it there |
| Integration.CornerChecks | src/flowfields/fields/integration_field.rs:294-341 | the impassable branch of `propagate_los` makes only corner writes |
| Integration.CornerBeside | src/flowfields/fields/integration_field.rs:306-336 | one side of that branch makes only corner writes, and none when the wavefront cell's neighbour on that side is missing or impassable |
| Integration.LosNeighbour | src/flowfields/fields/integration_field.rs:288-348 | one neighbour of a wavefront cell is stopped afterwards, and the wavefront moves onto it exactly when it was not stopped before |
| Integration.LosEntry | src/flowfields/fields/integration_field.rs:286-350 | after the neighbours of one wavefront cell are handled, every one of them is stopped, and the cells the wavefront moved onto are all orthogonal neighbours of that cell |
| Integration.LosRound | src/flowfields/fields/integration_field.rs:285-351 | after one pass over the active wavefront every neighbour of a wavefront cell is stopped, and every cell brought into sight is an orthogonal neighbour of some cell of the wavefront |
| Integration.PropagateLos | src/flowfields/fields/integration_field.rs:279-356 | the recursion ends; every neighbour of the starting wavefront, and every neighbour of a newly sighted cell, is stopped; the passes form rings starting with the given wavefront, each cell of a ring written and next to a cell of the ring before, a sighted cell of ring `i` costing exactly `wavefront_cost + i - 1`, and every newly sighted cell lying in a ring; a newly sighted neighbour of the starting wavefront costs exactly `wavefront_cost`, and two adjacent newly sighted cells differ in cost by at most one |
| Integration.LosLastRound | src/flowfields/fields/integration_field.rs:351-356 | a pass that brings no cell into sight ends the recursion with only the starting ring, and no cell newly sighted |
| Integration.NewLosSplit | src/flowfields/fields/integration_field.rs:342-355 | a cell newly sighted by the whole propagation was either sighted by the first pass, at that pass's cost, or by the recursive call at a higher cost |
| Integration.LosRingsStep | src/flowfields/fields/integration_field.rs:351-355 | the rings of the recursive call, behind the starting wavefront, are the rings of the whole propagation, one cost lower at the start |
| Integration.LosLayeredStep | src/flowfields/fields/integration_field.rs:342-355 | newly sighted neighbours of the starting wavefront cost exactly the first ring cost, and adjacent newly sighted cells stay within one of each other, across the first pass and the recursive call |
| Integration.LosReach | src/flowfields/fields/integration_field.rs:351-355 | the stopping facts of one pass and of the recursive call on the moved cells combine into those of the whole propagation |
| Integration.SetInitialLos | src/flowfields/fields/integration_field.rs:249-251 | the cell becomes the bare line-of-sight flag at cost 0, which stops the wavefront, and nothing else changes |
| Integration.LosPotentialBound | src/flowfields/fields/integration_field.rs:279-356 | the sum of weights is at most twice the number of cells, which bounds the number of passes |
| Integration.CalculateSectorGoalLos | src/flowfields/fields/integration_field.rs:257-260 | the line-of-sight pass from the target goals with a first ring cost of 1: every neighbour of the goals and of every cell it brings into sight is stopped, the sighted cells form rings outward from the goals at costs 1, 2, 3, …, the goals' newly sighted neighbours cost exactly 1, and adjacent sighted cells differ in cost by at most one |
| IntegrationBuilding.SetEach | src/flowfields/fields/integration_field.rs:140-144 | setting each of a list of cells to one value: exactly the listed cells hold it, the other cells and the corners are unchanged |
| IntegrationBuilding.ExpandedEntryMeaning | src/flowfields/fields/integration_field.rs:118-146 | the first entry always succeeds and gains the path's target as its one new goal, flagged as goal; any other entry gains the expansion of its portal, which starts with the portal itself, each new goal flagged as portal; old goals and corners are kept |
| IntegrationBuilding.ExpansionStartsWithPortal | src/flowfields/portal/portals.rs:344-526 | a successful expansion of a portal into goals is not empty and starts with the portal cell |
| IntegrationBuilding.WithGoalCorners | src/flowfields/fields/integration_field.rs:161-167 | a field with no corners takes its goals as corners; one with corners keeps them; sector, goals and costs are unchanged |
| IntegrationBuilding.ExpandEntry | src/flowfields/fields/integration_field.rs:118-146 | the loop body for one entry computes that entry's expansion, `None` where an `unwrap` or the expansion panics |
| IntegrationBuilding.MarkPortalGoals | src/flowfields/fields/integration_field.rs:140-144 | the inner loop appends the expanded cells to the goals and gives each of them the portal flag |
| IntegrationBuilding.AddGoalCorners | src/flowfields/fields/integration_field.rs:161-167 | the corner loop for one entry computes its entry with goal corners |
| IntegrationBuilding.IntegrationBuilder.constructor | src/flowfields/fields/integration_field.rs:56-69 | one entry per route step, in order, each for the step's sector with no goals and a new integration field from the step's cell and that sector's scaled costs; all three flags false |
| IntegrationBuilding.IntegrationBuilder.SetExpandedPortals | src/flowfields/fields/integration_field.rs:89-91 | the portal-expansion flag becomes true and nothing else changes |
| IntegrationBuilding.IntegrationBuilder.SetLosPass | src/flowfields/fields/integration_field.rs:97-99 | the line-of-sight flag becomes true and nothing else changes |
| IntegrationBuilding.IntegrationBuilder.SetCostPass | src/flowfields/fields/integration_field.rs:106-108 | the cost-pass flag becomes true and nothing else changes |
| IntegrationBuilding.IntegrationBuilder.ExpandFieldPortals | src/flowfields/fields/integration_field.rs:112-147 | the route and flags are kept; success exactly when every entry can be expanded, and then every entry is its expansion |
| IntegrationBuilding.IntegrationBuilder.CalculateLos | src/flowfields/fields/integration_field.rs:152-168 | success exactly when the route is empty or the first entry has a goal; then the first field is a line-of-sight pass from its goals (every neighbour of a goal or a sighted cell stopped, the sighted cells in rings at costs 1, 2, 3, … outward from the goals, adjacent sighted cells within one of each other) and every later field takes its goals as corners when it has none |
| IntegrationBuilding.IntegrationBuilder.BuildIntegratedCost | src/flowfields/fields/integration_field.rs:170-176 | success exactly when every route sector has scaled costs; then every field is the cost wavefront from its corners over those costs |
| LegacyCostField.CostField.constructor | src/flowfields/cost_field.rs:51-55 | a new 10 x 10 field in which every cell costs 1 |
| LegacyCostField.CostField.GetGridValue | src/flowfields/cost_field.rs:58-63 | the cost at `[column][row]`; `None` exactly where the source's index panics, a column or row of 10 or more |
| LegacyCostField.CostField.SetGridValue | src/flowfields/cost_field.rs:64-69 | fails exactly where the source panics and then changes nothing; otherwise that one cell takes the value and every other cell keeps its cost |
| LegacyCostField.CostField.CanInternalPortalPairSeeEachOther | src/flowfields/cost_field.rs:71-115 | a cell sees itself after 0 steps; two different cells see each other exactly when a route of passable orthogonal steps joins them, and the step count is then the length of a shortest such route |
| LegacyCostField.CostField.ProcessNeighbours | src/flowfields/cost_field.rs:81-112 | from a breadth-first frontier at a given depth that has not yet met the target, the search finds the target exactly when it is connected, and reports the shortest route length |
| LegacyCostField.CostField.Round | src/flowfields/cost_field.rs:86-110 | one breadth-first round: either a neighbour is the target, one step deeper, or the next ring holds only unvisited cells one step deeper and the frontier property holds for it |
| LegacyCostField.CostField.ScanNeighbours | src/flowfields/cost_field.rs:89-104 | for one queued cell, either the target is one of its neighbours or every passable unseen neighbour is added to the next ring, which gains only cells one step deeper |
| LegacyCostFields.CostFields.constructor | src/flowfields/cost_fields.rs:49-53 | a new 10 x 10 field in which every cell reads as cost 1 |
| LegacyCostFields.CostFields.GetGridValue | src/flowfields/cost_fields.rs:56-61 | the cost at `[column][row]`; `None` exactly where the source's index panics |
| LegacyCostFields.CostFields.SetGridValue | src/flowfields/cost_fields.rs:62-67 | fails exactly where the source panics and then changes nothing; otherwise a read of that cell gives the new value and every other read is unchanged |
| LegacyFlowField.PortalGoalsSeededMeaning | src/flowfields/flow_field.rs:79-89 | the goal loop with a previous sector succeeds exactly when every goal lies on the grid, and then the goal cells hold the portal-goal code and every other cell is as before |
| LegacyFlowField.PortalGoalsFailure | src/flowfields/flow_field.rs:80-88 | a goal off the grid makes the goal loop panic, wherever it stands in the list |
| LegacyFlowField.CalculatedGridMeaning | src/flowfields/flow_field.rs:72-124 | `calculate` succeeds exactly when the source does not panic: with no previous sector the first goal must exist and lie on the grid, and it becomes `BITS_GOAL`; with one, every goal must lie on the grid and holds the portal-goal flag with the previous sector's direction, which decodes back to that direction; every other cell is the per-cell flow of the second phase |
| LegacyFlowField.FlagsRecognisedMeaning | src/flowfields/flow_field.rs:131-145 | `abc` accepts a value exactly when one bit of its high nibble is set, whatever the low nibble; it refuses the unset sentinel and the impassable code |
| LegacyFlowField.CellFlowRecognised | src/flowfields/flow_field.rs:94-121 | a cell the second phase visits either stays unset, becomes impassable, or holds a value `abc` accepts and whose direction `get_ordinal_from_bits` decodes |
| LegacyFlowField.FlowField.constructor | src/flowfields/flow_field.rs:41-45 | a new field in which every cell holds the unset sentinel |
| LegacyFlowField.FlowField.GetGridValue | src/flowfields/flow_field.rs:60-65 | the byte at `[column][row]`; `None` exactly where the source's index panics |
| LegacyFlowField.FlowField.SetGridValue | src/flowfields/flow_field.rs:66-71 | fails exactly where the source panics and then changes nothing; otherwise that cell takes the value and every other read is unchanged |
| LegacyFlowField.FlowField.Calculate | src/flowfields/flow_field.rs:72-128 | succeeds exactly when the source does not panic, and then the grid is the specification of `calculate` applied to the grid before the call |
| LegacyFlowField.FlowField.SeedGoals | src/flowfields/flow_field.rs:78-89 | the goal phase succeeds exactly when its specification does, and leaves the grid it describes |
| LegacyFlowField.FlowField.FlowPass | src/flowfields/flow_field.rs:92-124 | after the nested loops every cell holds the per-cell flow of its seeded value |
| LegacyFlowFields.FlowFields.constructor | src/flowfields/flow_fields.rs:9-13 | a new field in which every cell holds `0x0F`, which decodes to no direction |
| LegacyFlowFields.FlowFields.GetGridValue | src/flowfields/flow_fields.rs:16-21 | the byte at `[column][row]`; `None` exactly where the source's index panics |
| LegacyFlowFields.FlowFields.SetGridValue | src/flowfields/flow_fields.rs:22-27 | fails exactly where the source panics and then changes nothing; otherwise a read of that cell gives the new value and every other read is unchanged |
| LegacyFlowFields.FlowFields.Calculate | src/flowfields/flow_fields.rs:28-30 | the body only declares an unused queue, so every cell reads as before |
| LegacyIntegrationFields.IntegrationFields.constructor | src/flowfields/integration_fields.rs:45-49 | a new field in which every cell holds 1 |
| LegacyIntegrationFields.IntegrationFields.GetGridValue | src/flowfields/integration_fields.rs:52-57 | the value at `[column][row]`; `None` exactly where the source's index panics |
| LegacyIntegrationFields.IntegrationFields.SetGridValue | src/flowfields/integration_fields.rs:58-63 | fails exactly where the source panics and then changes nothing; otherwise a read of that cell gives the new value and every other read is unchanged |
| LegacyIntegrationFields.IntegrationFields.Reset | src/flowfields/integration_fields.rs:65-71 | after the nested loops every cell holds `u16::MAX` |
| LegacySectors.ColumnIdsCount | src/flowfields/sectors.rs:28-30 | the inner loop for one column creates one id per row of sectors |
| LegacySectors.GridIdsSplit | src/flowfields/sectors.rs:27-31 | the ids the nested loops create split into those of the first columns and those of the last one |
| LegacySectors.GridIdsCount | src/flowfields/sectors.rs:27-31 | the nested loops create `columns * rows` distinct ids |
| LegacySectors.MapIdsCount | src/flowfields/sectors.rs:23-33 | both constructors create exactly `(x / 10) * (z / 10)` entries |
| LegacySectors.SectorCostFields.constructor | src/flowfields/sectors.rs:23-33 | the keys are exactly the sector ids of the map and every sector holds a default cost field |
| LegacySectors.SectorPortals.constructor | src/flowfields/sectors.rs:96-106 | the keys are exactly the sector ids of the map and every sector holds empty portals |
| LegacySectors.UpdatedIdsDistinct | src/flowfields/sectors.rs:124-130 | the list of sectors `update_portals` recalculates, the neighbours and then the changed sector, holds no sector twice |
| LegacySectors.RecalculatedAllMeaning | src/flowfields/sectors.rs:131-138 | recalculating a list of sectors succeeds exactly when every one of them is in the map; then the listed sectors hold their recalculated portals, every other sector keeps its own and no key is added |
| LegacySectors.SectorPortals.UpdatePortals | src/flowfields/sectors.rs:117-140 | succeeds exactly when no `unwrap` panics, and then the map is the recalculation of the changed sector's neighbours and the sector itself |
| LegacySectors.NeighboursInMap | src/flowfields/sectors.rs:124-130 | every sector the update recalculates is a sector of the map when the changed one is |
| LegacySectors.UpdateOnFullMap | src/flowfields/sectors.rs:117-140 | on a map whose portals cover every sector, an update of any sector succeeds and recalculates exactly that sector and its orthogonal neighbours |
| LegacySectors.BoundaryOrdinalsOfGridCellMeaning | src/flowfields/sectors.rs:276-295 | a cell is on a boundary exactly when its row or column is 0 or 9 (otherwise the source panics); each side it touches is listed once, in the order north, east, south, west, so a field corner gives two sides and any other boundary cell one |
| LegacySectors.NeighbourHelperExamples | src/flowfields/sectors.rs:510-639 | the ten unit tests of the two neighbour helpers on a 200 x 200 map: the neighbours of a northern, eastern, southern, western and central sector, with and without their directions |
| Bundle.NewMapDimensionsMeaning | src/bundle.rs:14-30 | the dimensions exist exactly when both sides are multiples of 10, where the source panics otherwise, and the getters hand back the two sides; `(10, 10)` is accepted and `(99, 3)` refused, as the unit tests expect |
| Bundle.FlowFieldTilesBundle.constructor | src/bundle.rs:66-73 | the bundle holds exactly the parts it is given |
| Bundle.UpdateEverySector | src/bundle.rs:50-57 | the update loop over every sector of a fresh map always succeeds, keeps the map's sectors as keys and leaves every sector holding its recalculated portals |
| Bundle.NewBundle | src/bundle.rs:45-74 | `None` exactly where the dimensions are refused; otherwise every sector has a default cost field, every sector's portals are recalculated before the graph is built from them, and the field cache is empty |
| Graph.EqualityMeaning | src/flowfields/portal/portal_graph.rs:67-120 | two nodes are equal exactly when their sector, cell and side agree, whatever their weights; two edges are equal exactly when both their ends are, whatever their distances |
| Graph.WithNode | src/flowfields/portal/portal_graph.rs:150-152 | inserting a node into the hash set (through `InsertAbsent`) adds its key, keeps every stored node, and keeps the stored node when an equal one is already present |
| Graph.WithEdge | src/flowfields/portal/portal_graph.rs:184-190 | inserting an edge into a hash set (through `InsertAbsent`) adds its key, keeps every stored edge, and keeps the stored edge when an equal one is already present |
| Graph.InsertAbsent | src/flowfields/portal/portal_graph.rs:150-190 | inserting into a hash set: the key is present afterwards, every stored entry is kept, and the new value is stored only when its key was absent |
| Graph.InsertIdempotent | src/flowfields/portal/portal_graph.rs:150-190 | inserting an equal node or edge a second time changes nothing, and the set grows by one exactly when the item was new |
| Graph.Detached | src/flowfields/portal/portal_graph.rs:154-174 | the edges left once every edge that starts or ends at a node is dropped: exactly the others, unchanged |
| Graph.FlipInvolution | src/flowfields/portal/portal_graph.rs:452-462 | flipping a direction always changes it, and flipping twice gives it back |
| Graph.PortalList | src/flowfields/portal/portal_graph.rs:266-272 | the list of `(cell, side)` pairs holds exactly the portals of the four sides |
| Graph.TouchingEdges | src/flowfields/portal/portal_graph.rs:155-166 | the collected keys are exactly the edges that start or end at the node |
| Graph.NodesInSector | src/flowfields/portal/portal_graph.rs:370-375 | the collected nodes are exactly the nodes of the set in the sector |
| Graph.NodesOnSide | src/flowfields/portal/portal_graph.rs:377-384 | the collected nodes are exactly the nodes of the set in the sector on the given side |
| Graph.StaleNodes | src/flowfields/portal/portal_graph.rs:366-385 | the nodes to remove are exactly the nodes of the changed sector and, for each neighbour, its nodes on the side facing the changed sector |
| Graph.PortalGraph.constructor | src/flowfields/portal/portal_graph.rs:133-143 | the default graph has no nodes and no edges |
| Graph.PortalGraph.AddNode | src/flowfields/portal/portal_graph.rs:150-152 | the node set becomes the set with the node inserted and the edges are unchanged |
| Graph.PortalGraph.AddEdgeInternal | src/flowfields/portal/portal_graph.rs:184-186 | the internal edges become the set with the edge inserted; nodes and external edges are unchanged |
| Graph.PortalGraph.AddEdgeExternal | src/flowfields/portal/portal_graph.rs:188-190 | the external edges become the set with the edge inserted; nodes and internal edges are unchanged |
| Graph.PortalGraph.RemoveEdgeInternal | src/flowfields/portal/portal_graph.rs:192-194 | the internal edge equal to the argument, if any, is dropped and nothing else changes |
| Graph.PortalGraph.RemoveEdgeExternal | src/flowfields/portal/portal_graph.rs:196-198 | the external edge equal to the argument, if any, is dropped and nothing else changes |
| Graph.PortalGraph.RemoveInternalEdges | src/flowfields/portal/portal_graph.rs:167-169 | the removal loop drops exactly the listed internal edges |
| Graph.PortalGraph.RemoveExternalEdges | src/flowfields/portal/portal_graph.rs:170-172 | the removal loop drops exactly the listed external edges |
| Graph.PortalGraph.RemoveNode | src/flowfields/portal/portal_graph.rs:154-174 | the node is gone, no edge of either set still starts or ends at it, and every other node and edge stays |
| Graph.PortalGraph.CreateSectorNodes | src/flowfields/portal/portal_graph.rs:226-245 | the nodes become the old ones plus a node for every portal of the sector, weighted by its cell's scaled cost; an existing equal node keeps its weight; the edges are unchanged |
| Graph.PortalGraph.CreateAllNodes | src/flowfields/portal/portal_graph.rs:215-225 | the nodes become the old ones plus a node for every portal of every sector |
| Graph.PortalGraph.ConnectFrom | src/flowfields/portal/portal_graph.rs:274-287 | one row of the pair loop adds the edges from one portal to every other portal of the list that it reaches, each carrying exactly `DistanceBetween` of the two cells and both ends weighted by their cells' costs |
| Graph.PortalGraph.ConnectPair | src/flowfields/portal/portal_graph.rs:276-285 | one pair `(i, j)` of the loop moves the progress on by one pair: the internal edges are the old ones plus one edge for every pair so far whose positions differ and whose cells are equal or reach each other, each carrying exactly `DistanceBetween` of its cells; nodes and external edges are unchanged |
| Graph.PortalGraph.CreateSectorInternalEdges | src/flowfields/portal/portal_graph.rs:260-289 | the internal edges become the old ones plus an edge from each portal of the sector to every other portal it reaches, carrying exactly `DistanceBetween` of the two cells |
| Graph.PortalGraph.CreateAllInternalEdges | src/flowfields/portal/portal_graph.rs:247-258 | the internal edges become the old ones plus the internal edges of every sector over its scaled costs, each carrying exactly `DistanceBetween` of its ends' cells |
| Graph.PortalGraph.ConnectAcross | src/flowfields/portal/portal_graph.rs:318-351 | the edges across one boundary: from the `i`-th portal on the side facing a neighbour to the `i`-th portal on the neighbour's inverse side |
| Graph.PortalGraph.CreateSectorExternalEdges | src/flowfields/portal/portal_graph.rs:311-352 | the external edges become the old ones plus, for every listed neighbour, an edge from each portal on the facing side to the portal of the same position on the inverse side, of distance 1 |
| Graph.PortalGraph.CreateAllExternalEdges | src/flowfields/portal/portal_graph.rs:291-309 | the external edges become the old ones plus the external edges of every sector into each of its neighbours |
| Graph.PortalGraph.RemoveNodes | src/flowfields/portal/portal_graph.rs:386-389 | the listed nodes are gone, and so is every edge of either set touching one of them |
| Graph.PortalGraph.RebuildNodes | src/flowfields/portal/portal_graph.rs:390-398 | the nodes of the changed sector and of each neighbour are created again from their current portals |
| Graph.PortalGraph.RebuildInternalEdges | src/flowfields/portal/portal_graph.rs:399-412 | the internal edges of the changed sector and of each neighbour are created again over their scaled costs, each carrying exactly `DistanceBetween` of its ends' cells |
| Graph.PortalGraph.RebuildExternalEdges | src/flowfields/portal/portal_graph.rs:413-434 | the external edges from the changed sector into each neighbour and back from each neighbour into the changed sector are created again |
| Graph.PortalGraph.UpdateGraph | src/flowfields/portal/portal_graph.rs:363-437 | the stale nodes and every edge touching them are replaced by those built from the current portals, every new internal edge carrying exactly `DistanceBetween` over its sector's scaled costs, everything else stays, and a closed graph stays closed |
| Graph.NewGraph | src/flowfields/portal/portal_graph.rs:203-214 | the graph holds exactly a node for every portal, the internal edges of every sector, each carrying exactly `DistanceBetween` of its ends' cells, and the external edges across every boundary |
| Graph.InternalEdgeEnds | src/flowfields/portal/portal_graph.rs:274-287 | both ends of an internal edge are portals of its own sector |
| Graph.ExternalEdgeEnds | src/flowfields/portal/portal_graph.rs:318-351 | an external edge joins the `i`-th portal on one side of a sector to the `i`-th portal on the inverse side of the sector across it, and both ends are portals |
| Graph.NewGraphClosed | src/flowfields/portal/portal_graph.rs:203-214 | the graph built from a map's portals is closed, every edge having both its ends as nodes, and every external edge has distance 1 |
| Graph.NeighboursDistinct | src/flowfields/sectors/mod.rs:375-385 | no sector is its own neighbour and no neighbour is listed twice |
| Graph.InternalKeyEnds | src/flowfields/portal/portal_graph.rs:274-287 | both ends of an internal edge of a sector are nodes of that sector's portals |
| Graph.ExternalAtEnds | src/flowfields/portal/portal_graph.rs:327-347 | the ends of an external edge are nodes of the two sectors' portals |
| Graph.UpdateKeepsClosed | src/flowfields/portal/portal_graph.rs:363-437 | the update keeps a closed graph closed: every edge left in place still has both ends, and every edge it adds joins nodes it adds |
| Graph.UpdatedSectorNodes | src/flowfields/portal/portal_graph.rs:363-437 | after the update the changed sector holds exactly its current portals as nodes, each neighbour exactly its current portals on the side facing the changed sector, and every other sector's nodes are untouched |
| Graph.UpdatedSectorEdges | src/flowfields/portal/portal_graph.rs:363-437 | after the update the changed sector's internal edges are exactly those between its current portals that reach each other, each carrying exactly `DistanceBetween` of its ends' cells, and its external edges exactly those into its neighbours' facing portals |
| GraphSearch.EdgesWhere | src/flowfields/portal/portal_graph.rs:628-649 | the edges collected from a set are exactly its edges the filter accepts |
| GraphSearch.FindEdgesInternal | src/flowfields/portal/portal_graph.rs:628-639 | exactly the internal edges that start at the node's cell and stay within its sector |
| GraphSearch.FindEdgesExternal | src/flowfields/portal/portal_graph.rs:641-649 | exactly the external edges that start at a node equal to the given one and lead into another sector |
| GraphSearch.RouteIsWalk | src/flowfields/portal/portal_graph.rs:697-780 | every route the search keeps in its queue is a walk from the source |
| GraphSearch.WalkExtends | src/flowfields/portal/portal_graph.rs:717-729 | following one more edge of the kind the walk explores next extends it into a route to the edge's target, with the edge's distance added and the target's weight as score term |
| GraphSearch.RouteLastId | src/flowfields/portal/portal_graph.rs:67-73 | a route depends on its last node only through node equality |
| GraphSearch.CellsOf | src/flowfields/portal/portal_graph.rs:610-614 | the extracted path has one `(sector, cell)` per node, in order |
| GraphSearch.WalkLinked | src/flowfields/portal/portal_graph.rs:697-780 | a walk starts at the source's cell and every step runs along an edge of the graph |
| GraphSearch.WalkAlternates | src/flowfields/portal/portal_graph.rs:684-780 | along a walk the search alternates: step `i` follows an external edge when `i` is even and an internal one when `i` is odd |
| GraphSearch.NextItem | src/flowfields/portal/portal_graph.rs:717-729 | the entry built for an edge's target extends the history with the current node, adds the edge's distance, scores distance plus the target's weight, and flips the direction |
| GraphSearch.NextItemOK | src/flowfields/portal/portal_graph.rs:717-729 | taking an edge the search follows from a queue entry gives a queue entry |
| GraphSearch.Redirected | src/flowfields/portal/portal_graph.rs:740-746 | an overwritten entry keeps its node and takes the new score, history, distance and direction |
| GraphSearch.RedirectedOK | src/flowfields/portal/portal_graph.rs:740-746 | overwriting an entry for an equal node with a queue entry gives a queue entry |
| GraphSearch.RedirectQueue | src/flowfields/portal/portal_graph.rs:736-749 | every entry of the new node whose score is no better is overwritten and the others stay; a new entry is required exactly when none was overwritten |
| GraphSearch.RedirectionKeepsItems | src/flowfields/portal/portal_graph.rs:736-749 | the overwriting pass keeps every queue entry a route of the search |
| GraphSearch.ProcessEdge | src/flowfields/portal/portal_graph.rs:730-772 | the score map gains the target's key, keeps every other score, and holds the smaller of the old and new score for the target; the queue still holds only routes |
| GraphSearch.ProcessNeighbours | src/flowfields/portal/portal_graph.rs:711-773 | after the edge loop every target's score is at most the score through the current entry, and the queue still holds only routes |
| GraphSearch.KeptItems | src/flowfields/portal/portal_graph.rs:697 | removing entries from a queue of routes leaves a queue of routes |
| GraphSearch.ExploreFrom | src/flowfields/portal/portal_graph.rs:703-776 | one round explores the edges of the entry's kind, keeps only routes in the queue and leaves it sorted by score |
| GraphSearch.Search | src/flowfields/portal/portal_graph.rs:695-782 | the start entry when source and target are equal; `None` when the first entry already scores worse than the best score so far; an entry it returns is for the target and is a route of the search |
| GraphSearch.AStar | src/flowfields/portal/portal_graph.rs:651-793 | `None` when either end is not a node of the graph; the one-node path when source and target are equal; otherwise a returned path ends at the target and is a route from the source along the graph of the returned score |
| GraphSearch.ExtractCells | src/flowfields/portal/portal_graph.rs:610-614 | the loop computes the `(sector, cell)` of every node of the path |
| GraphSearch.FindPathBetweenSectorPortals | src/flowfields/portal/portal_graph.rs:593-626 | the best path is kept, or replaced by a path the search finds with a strictly smaller score, or set when there was none; a stored path runs along the graph from source to target; the best score never rises |
| GraphSearch.PortalsOfConcat | src/flowfields/portal/portal_graph.rs:518-531 | the listed portals of two joined lists are those of each |
| GraphSearch.SideSourcePortals | src/flowfields/portal/portal_graph.rs:519-530 | the portals of one side kept for the source are exactly those the source cell reaches, each with exactly `DistanceBetween` of the source cell and the portal, below 255 |
| GraphSearch.SourcePortals | src/flowfields/portal/portal_graph.rs:508-532 | the source portals are exactly the portals of the sector, on every side, that the source cell reaches, each with exactly `DistanceBetween` of the source cell and the portal |
| GraphSearch.SideTargetPortals | src/flowfields/portal/portal_graph.rs:542-549 | the portals of one side kept for the target are exactly those that reach the target cell |
| GraphSearch.TargetPortals | src/flowfields/portal/portal_graph.rs:533-550 | the target portals are exactly the portals of the sector, on every side, that reach the target cell |
| GraphSearch.TryTargets | src/flowfields/portal/portal_graph.rs:565-584 | over the target portals for one source portal, a stored best path keeps fitting the query and its score never rises |
| GraphSearch.FindBestPath | src/flowfields/portal/portal_graph.rs:500-590 | when source and target share a sector and the source reaches the target a route is always found; any route found starts where the source cell can go, ends at the target and runs along the graph |
| LegacyGraph.NodeOrderMeaning | src/flowfields/portal/portal_graph_node_edges.rs:48-65 | node ordering and equality agree and see only sector and cell, whatever the weights; the ordering is antisymmetric and transitive |
| LegacyGraph.EdgeOrderMeaning | src/flowfields/portal/portal_graph_node_edges.rs:98-115 | edge ordering sees only the two ends while edge equality also sees the direction: an edge and its copy with the other direction compare equal yet are not equal |
| LegacyGraph.WithNode | src/flowfields/portal/portal_graph_node_edges.rs:254-264 | inserting a node into the ordered set adds its key, keeps every stored node, and keeps the stored node when one with the same key is present |
| LegacyGraph.WithEdge | src/flowfields/portal/portal_graph_node_edges.rs:202-208 | inserting an edge into the ordered set adds its key, keeps every stored edge, and keeps the stored edge when one with the same ends is present |
| LegacyGraph.InsertNoDuplicate | src/flowfields/portal/portal_graph_node_edges.rs:202-264 | inserting a node or an edge equal by the ordering to one inserted before changes nothing, and an insertion adds one element exactly when none with its key was present |
| LegacyGraph.Detached | src/flowfields/portal/portal_graph_node_edges.rs:210-222 | the edges left once every edge that starts or ends at a node is dropped: exactly the others, unchanged |
| LegacyGraph.EveryPortal | src/flowfields/portal/portal_graph_node_edges.rs:276-278 | the list of all portals of a sector holds exactly the portal cells of its four sides |
| LegacyGraph.SideInEveryPortal | src/flowfields/portal/portal_graph_node_edges.rs:276-278 | a portal cell of any side is in the list of all portals |
| LegacyGraph.PairKeyEnds | src/flowfields/portal/portal_graph_node_edges.rs:288-305 | both ends of an edge of the internal pass are cells of the portal list, in the sector, and the first sees the second |
| LegacyGraph.ExternalEdgeOf | src/flowfields/portal/portal_graph_node_edges.rs:343-353 | an external edge as the external pass stores it: marked external, with distance 5 |
| LegacyGraph.ExternalEdgeCrosses | src/flowfields/portal/portal_graph_node_edges.rs:325-357 | an external edge of the map leaves its sector for a different one |
| LegacyGraph.UpdatedNodesComposed | src/flowfields/portal/portal_graph_node_edges.rs:381-396 | the node removals and insertions of the two replacement steps together give the node set the update promises |
| LegacyGraph.UpdatedEdgesComposed | src/flowfields/portal/portal_graph_node_edges.rs:381-438 | the edge removals and insertions of the three steps of the update together give the edge set it promises |
| LegacyGraph.TouchingEdges | src/flowfields/portal/portal_graph_node_edges.rs:212-217 | the collected keys are exactly the edges that start or end at the node |
| LegacyGraph.NodesContainingSector | src/flowfields/portal/portal_graph_node_edges.rs:183-191 | the collected keys are exactly the nodes of the sector |
| LegacyGraph.BoundaryNodes | src/flowfields/portal/portal_graph_node_edges.rs:455-516 | the scan for one neighbour collects exactly its nodes on the boundary facing the changed sector, and among them exactly those whose cell is no longer a portal of that side |
| LegacyGraph.PortalGraph.constructor | src/flowfields/portal/portal_graph_node_edges.rs:150-155 | the default graph has no nodes and no edges |
| LegacyGraph.PortalGraph.GetNode | src/flowfields/portal/portal_graph_node_edges.rs:166-173 | the stored node with the given sector and cell when there is one, and `None` exactly when there is none |
| LegacyGraph.PortalGraph.InsertPortalNode | src/flowfields/portal/portal_graph_node_edges.rs:254-264 | the node is added unless one with its sector and cell is present, which is kept; the edges are unchanged |
| LegacyGraph.PortalGraph.AddEdge | src/flowfields/portal/portal_graph_node_edges.rs:202-208 | the edge is added unless one with the same two ends is present, which is kept; the nodes are unchanged |
| LegacyGraph.PortalGraph.RemoveEdge | src/flowfields/portal/portal_graph_node_edges.rs:224-226 | the edge with the same two ends, whatever its direction, is dropped, and nothing else changes |
| LegacyGraph.PortalGraph.RemoveEdges | src/flowfields/portal/portal_graph_node_edges.rs:218-220 | the removal loop drops exactly the listed edges |
| LegacyGraph.PortalGraph.RemoveNode | src/flowfields/portal/portal_graph_node_edges.rs:210-222 | the node is gone, no edge still starts or ends at it, and every other node and edge stays |
| LegacyGraph.PortalGraph.RemoveNodeKeys | src/flowfields/portal/portal_graph_node_edges.rs:547-549 | the removal loop drops exactly the listed nodes and no edge |
| LegacyGraph.PortalGraph.InsertCells | src/flowfields/portal/portal_graph_node_edges.rs:243-251 | the nodes become the old ones plus a node for each listed cell of the sector, weighted by its scaled cost; existing nodes are kept |
| LegacyGraph.PortalGraph.InsertAllPortalNodes | src/flowfields/portal/portal_graph_node_edges.rs:240-253 | the nodes become the old ones plus a node for every portal of every sector |
| LegacyGraph.PortalGraph.ConnectFrom | src/flowfields/portal/portal_graph_node_edges.rs:289-306 | one row of the pair loop adds the edges from one portal to every other portal of the list it sees |
| LegacyGraph.PortalGraph.BuildSectorInternalEdges | src/flowfields/portal/portal_graph_node_edges.rs:282-309 | the edges become the old ones plus an internal edge from each portal of the list to every other one it sees, with the visibility test's step count as distance |
| LegacyGraph.PortalGraph.BuildAllInternalSectorEdges | src/flowfields/portal/portal_graph_node_edges.rs:266-280 | the edges become the old ones plus the internal edges of every sector over its scaled costs |
| LegacyGraph.PortalGraph.ConnectAcross | src/flowfields/portal/portal_graph_node_edges.rs:334-355 | the edges across one boundary: from the `i`-th portal on the side facing a neighbour to the `i`-th portal on the neighbour's inverse side |
| LegacyGraph.PortalGraph.BuildSectorExternalEdges | src/flowfields/portal/portal_graph_node_edges.rs:325-357 | the edges become the old ones plus, for every listed neighbour, an external edge from each portal on the facing side to the portal of the same position on the inverse side, of distance 5 |
| LegacyGraph.PortalGraph.BuildAllExternalSectorEdges | src/flowfields/portal/portal_graph_node_edges.rs:311-323 | the edges become the old ones plus the external edges of every sector into each of its neighbours |
| LegacyGraph.PortalGraph.BuildAll | src/flowfields/portal/portal_graph_node_edges.rs:234-238 | the three building passes from an empty graph give exactly the nodes and edges of a fresh build |
| LegacyGraph.PortalGraph.ResetGraph | src/flowfields/portal/portal_graph_node_edges.rs:359-371 | the graph is cleared and built again, exactly as `new` builds it |
| LegacyGraph.PortalGraph.RemoveEdgesTargeting | src/flowfields/portal/portal_graph_node_edges.rs:520-524 | every edge of the copy that ends at the node is removed, and no other |
| LegacyGraph.PortalGraph.RemoveEdgesTargetingAll | src/flowfields/portal/portal_graph_node_edges.rs:518-528 | every edge of the copy that ends at one of the boundary nodes is removed, and no other |
| LegacyGraph.PortalGraph.RemoveBoundary | src/flowfields/portal/portal_graph_node_edges.rs:446-532 | for one neighbour, judged against the copy taken before the first neighbour, the edges ending at its facing nodes are removed and so are the facing nodes that are no longer portals |
| LegacyGraph.PortalGraph.ReplaceNeighbourSide | src/flowfields/portal/portal_graph_node_edges.rs:446-540 | for one neighbour, the removals, then a node for every portal on the facing side, then the neighbour's internal edges built again |
| LegacyGraph.PortalGraph.ReplaceOldNeighbourNodes | src/flowfields/portal/portal_graph_node_edges.rs:442-541 | the replacement for each listed neighbour in turn, each judged against the graph as it was before the first |
| LegacyGraph.PortalGraph.ReplaceChangedSectorNodes | src/flowfields/portal/portal_graph_node_edges.rs:543-567 | every node of the changed sector is removed but no edge; a node is inserted for each of its portals, and its internal edges are built again |
| LegacyGraph.PortalGraph.LinkNeighbour | src/flowfields/portal/portal_graph_node_edges.rs:397-435 | for one neighbour, the edges from the changed sector across the side facing it, then those back from the neighbour |
| LegacyGraph.PortalGraph.UpdateGraph | src/flowfields/portal/portal_graph_node_edges.rs:381-438 | the graph becomes the neighbour replacement, then the changed-sector replacement, then the edges across every boundary of the changed sector |
| LegacyGraph.NewGraph | src/flowfields/portal/portal_graph_node_edges.rs:228-239 | a fresh graph holding exactly the nodes, internal edges and external edges of every sector |
| LegacyGraph.BuiltIsClosed | src/flowfields/portal/portal_graph_node_edges.rs:228-239 | in a fresh build both ends of every edge are nodes stored with the same weights; an edge within a sector is internal and between portals that see each other, one across sectors is external with distance 5 |
| LegacyGraph.UpdateKeepsFacingNodes | src/flowfields/portal/portal_graph_node_edges.rs:442-541 | of a neighbour's nodes on the boundary with the changed sector, the update keeps with its old weight each one still a portal on that side and drops each one that is not |
| LegacyGraph.UpdateKeepsEdgesIntoChanged | src/flowfields/portal/portal_graph_node_edges.rs:381-438 | the update removes no edge ending in the changed sector, even where that end is an old node it removed, so the graph can be left with an edge to a node it no longer holds |
| LegacyGraph.UpdateLinksNodes | src/flowfields/portal/portal_graph_node_edges.rs:397-435 | the external edges the update adds have both ends among the nodes of the updated graph and cross from one sector to another |
| LegacyGraphSearch.FindEdges | src/flowfields/portal/portal_graph_node_edges.rs:660-668 | exactly the edges of the graph from a node equal to the given one and of the given kind |
| LegacyGraphSearch.RouteIsWalk | src/flowfields/portal/portal_graph_node_edges.rs:706-781 | every route the search keeps in its queue is a walk from the source |
| LegacyGraphSearch.WalkExtends | src/flowfields/portal/portal_graph_node_edges.rs:715-726 | following one more edge of the kind the walk explores next extends it into a route to the edge's target, with the edge's distance added |
| LegacyGraphSearch.RouteLastEqual | src/flowfields/portal/portal_graph_node_edges.rs:60-64 | a route depends on its last node only through node equality |
| LegacyGraphSearch.CellsOf | src/flowfields/portal/portal_graph_node_edges.rs:649-653 | the extracted path has one `(sector, cell)` per node, in order |
| LegacyGraphSearch.WalkLinked | src/flowfields/portal/portal_graph_node_edges.rs:706-781 | a walk starts at the source's cell and every step runs along an edge of the graph |
| LegacyGraphSearch.WalkAlternates | src/flowfields/portal/portal_graph_node_edges.rs:693-781 | along a walk the search alternates: step `i` follows an external edge when `i` is even and an internal one when `i` is odd |
| LegacyGraphSearch.NextEntry | src/flowfields/portal/portal_graph_node_edges.rs:715-726 | the entry built for an edge's target extends the history with the current node, adds the edge's distance, scores distance plus the target's weight, and flips the direction |
| LegacyGraphSearch.NextEntryOK | src/flowfields/portal/portal_graph_node_edges.rs:715-726 | taking an edge the search follows from a queue entry gives a queue entry |
| LegacyGraphSearch.Redirected | src/flowfields/portal/portal_graph_node_edges.rs:737-743 | an overwritten entry keeps its node and takes the new score, history, distance and direction |
| LegacyGraphSearch.RedirectedOK | src/flowfields/portal/portal_graph_node_edges.rs:737-743 | overwriting an entry for an equal node with a queue entry gives a queue entry |
| LegacyGraphSearch.RedirectQueue | src/flowfields/portal/portal_graph_node_edges.rs:733-746 | every entry of the new node whose score is no better is overwritten and the others stay; a new entry is required exactly when none was overwritten |
| LegacyGraphSearch.RedirectionKeepsEntries | src/flowfields/portal/portal_graph_node_edges.rs:733-746 | the overwriting pass keeps every queue entry a route of the search |
| LegacyGraphSearch.ProcessEdge | src/flowfields/portal/portal_graph_node_edges.rs:727-769 | the target's score is replaced when it has none or one no better (the older search compares with `>=`); the queue still holds only routes |
| LegacyGraphSearch.ProcessNeighbours | src/flowfields/portal/portal_graph_node_edges.rs:708-770 | after the edge loop every target's score is no worse than the route through the current entry, and the queue still holds only routes |
| LegacyGraphSearch.KeptEntries | src/flowfields/portal/portal_graph_node_edges.rs:706 | removing entries from a queue of routes leaves a queue of routes |
| LegacyGraphSearch.ExploreFrom | src/flowfields/portal/portal_graph_node_edges.rs:704-778 | one round explores the edges of the entry's kind, keeps only routes in the queue and leaves it sorted by score |
| LegacyGraphSearch.Search | src/flowfields/portal/portal_graph_node_edges.rs:702-785 | the start entry when source and target are equal; an entry it returns is for the target and is a route of the search |
| LegacyGraphSearch.AStar | src/flowfields/portal/portal_graph_node_edges.rs:670-790 | the one-node path when source and target are equal; a returned path ends with the target and is a route from the source along the graph of the returned score |
| LegacyGraphSearch.ExtractCells | src/flowfields/portal/portal_graph_node_edges.rs:649-653 | the loop computes the `(sector, cell)` of every node of the path |
| LegacyGraphSearch.FindPathBetweenSectorPortals | src/flowfields/portal/portal_graph_node_edges.rs:646-658 | the score and cells of the path the search finds, `None` when it finds none |
| LegacyGraphSearch.Visible | src/flowfields/portal/portal_graph_node_edges.rs:585-597 | the cells of a list the given cell sees, in order |
| LegacyGraphSearch.VisibleConcat | src/flowfields/portal/portal_graph_node_edges.rs:585-597 | filtering a joined list filters each part |
| LegacyGraphSearch.VisibleSide | src/flowfields/portal/portal_graph_node_edges.rs:586-596 | the inner loop keeps exactly the cells of one side that the cell sees, in order |
| LegacyGraphSearch.VisiblePortals | src/flowfields/portal/portal_graph_node_edges.rs:584-597 | the gathering loops keep the portals of the sector, side after side, that the cell sees |
| LegacyGraphSearch.CheapestIsFirstLeast | src/flowfields/portal/portal_graph_node_edges.rs:632-641 | the selection gives nothing exactly when every candidate costs `i32::MAX` or more, and otherwise the first candidate of least score |
| LegacyGraphSearch.SelectBest | src/flowfields/portal/portal_graph_node_edges.rs:632-641 | the selection loop computes the cells of the first candidate of least score below `i32::MAX` |
| LegacyGraphSearch.TryTargets | src/flowfields/portal/portal_graph_node_edges.rs:620-629 | for one source portal, every candidate kept runs from that portal to a target portal along the graph |
| LegacyGraphSearch.CollectPaths | src/flowfields/portal/portal_graph_node_edges.rs:618-630 | every candidate kept runs from a source portal the source cell sees to a target portal that sees the target cell, along the graph |
| LegacyGraphSearch.FindBestPath | src/flowfields/portal/portal_graph_node_edges.rs:572-643 | a returned path is a candidate from a portal the source cell sees to a portal that sees the target cell, along the graph |
| Queues.SwapRemoveFirst | src/flowfields/portal/portal_graph.rs:697 | removing the first entry leaves one fewer, the same entries less the first, with the last entry moved to the front and the rest in place |
| Queues.InsertBy | src/flowfields/portal/portal_graph.rs:776 | inserting into a sorted queue adds exactly one entry and keeps the others |
| Queues.InsertKeepsSorted | src/flowfields/portal/portal_graph.rs:776 | inserting into a queue sorted by score keeps it sorted |
| Queues.SortBy | src/flowfields/portal/portal_graph.rs:776 | the sorted queue is in ascending order of score and is a permutation of the queue |
| Queues.InsertByStable | src/flowfields/portal/portal_graph.rs:776 | the sort is stable: an inserted entry goes before every entry of equal score already in place |

## Left out

- Bevy plumbing is not part of this model: the plugin systems, event readers and writers, queries, rendering and the `examples` crate.
- The file and format loaders are left out, because they are I/O or depend on Bevy `Mesh` and floating point. These are `from_ron`, `from_file`, `from_csv_dir`, `from_heightmap`, `from_bevy_2d_meshes` and `retrieve_mesh_edges`. The same goes for `EdgeLine` with its intersection tests and the mesh-candidate functions of src/flowfields/sectors/sector_cost.rs.
- The conversions between world positions (`Vec2`/`Vec3`) and sectors or field cells are floating point and are left out. This covers src/flowfields/sectors/mod.rs and the older src/flowfields/sectors.rs, which has `get_sector_id_from_xy(z)`, `get_sector_xy(z)_at_top_left` and `get_sector_and_field_*_from_xy(z)` together with their unit tests.
- `actor_scale` is computed with `f32::ceil` in `MapDimensions::new`, so it is taken as an input.
- `get_2d_direction_unit_vector_from_bits` and `get_3d_direction_unit_vector_from_bits` of the flow field return floating-point vectors and are left out.
- The diagonal branch of `check_los_corner_propagation` works out its line in `f32`. The model keeps the straight-line branches and takes the diagonal end as a parameter (`diagonalEnd`). The diagonal unit tests of that function are not modelled.
- The Bresenham line `get_cells_between_points` is not part of this model. The line-of-sight members take it as a parameter `line`.
- `Ordinal::get_cell_neighbour` and `FieldCell::get_boundary_ordinal_from_field_cell` are defined outside the files this model covers. They are modelled as the step in that direction when it stays in the field, and as the N, E, S, W list of boundaries a cell touches, the shape of `get_boundary_ordinal_from_grid_cell` in src/flowfields/sectors.rs.
- `Ordinal::get_cell_neighbours`, which the older visibility search of src/flowfields/cost_field.rs:93 calls, is defined outside the files this model covers (src/flowfields/utilities.rs:30 defines `get_orthogonal_cell_neighbours`). LegacyCostField models it as the orthogonal neighbours (`OrthogonalNeighbours`), in the order North, East, South, West; if the source's function also yields diagonal neighbours, the step counts proved there are those of an orthogonal walk.
- `Portals::get_all` is defined outside the files this model covers. It is modelled as the portals of the four sides in N, E, S, W order.
- The older `Portals::recalculate_portals` that src/flowfields/sectors.rs and src/bundle.rs call is not part of this model. Its outcome for each sector is the parameter `recalculated`.
- The portal graph constructor that src/bundle.rs calls is a parameter `buildGraph`. The route cache of the bundle is not part of this model, and neither is `new_from_disk`.
- `CostField::can_internal_portal_pair_see_each_other`, which the older graph of portal_graph_node_edges.rs calls on the newer cost field, is not defined there. It is the parameter of the older graph that says whether two portal cells see each other and at what distance.
- src/flowfields/portal/portal_graph_node_edges.rs is not declared as a module in src/flowfields/portal/mod.rs, but it is modelled all the same. Its update can leave an edge pointing at a node it has removed (LegacyGraph.UpdateKeepsEdgesIntoChanged). This is stated as a property of the older graph and not as a finding, because its own tests count those edges.
- GraphSearch.AStar and GraphSearch.FindBestPath: a `fuel` bound stops the search after that many rounds. The source loops until its queue is empty, which terminates because a route never revisits a node, but that is not proved here. A result that fuel cuts short is `None`.
- LegacyGraphSearch.AStar and LegacyGraphSearch.FindBestPath: the same `fuel` bound holds for the older search.
- The concrete node and edge counts of the graph unit tests are not proved as lemmas. For a uniform 3 x 3 world they are 24 nodes, 44 internal and 24 external edges; the updated graphs give 10/16/10 and 12/26/12, and the older graph 68 and 80 edges. Computing them would mean evaluating whole graph builds in the verifier. The model instead proves what each build pass adds and what an update keeps and removes.
- `best_path_as_sector_portals` only reshapes the path into `(SectorID, FieldCell)` pairs and is left out.
- The cost field visibility unit tests of src/flowfields/cost_field.rs (`internal_portal_visibility_true`/`false`, with a step count of 13) are not proved on their concrete walls. LegacyCostField.CostField.CanInternalPortalPairSeeEachOther proves the step count and the answer in general, against the shortest-walk specification.
- `HashSet`/`BTreeSet` iteration order: a loop over a set takes its elements in an unspecified order (`:|`). The properties proved do not depend on that order.
- The A* queue is sorted with a stable insertion sort (Queues.SortBy). Stability is proved for an element inserted ahead of an equal one (Queues.InsertByStable), not as a general theorem about the whole sort.
- It is not proved that an incremental `update_graph` gives the same graph as a fresh build. The update lemmas state which nodes and edges it keeps, removes and adds.
- Panics: `unwrap` on a missing map entry, index out of bounds and `panic!` calls are preconditions of the operation where no caller can reach them. They are `None`/`false` results where the source's behaviour at the panic is itself a property, for example the out-of-bounds getters, `get_ordinal_from_bits`, `abc`, `MapDimensions::new` and the edge case of actor scaling.
- Fixed-width arithmetic: the costs are `u8`, `u16` and `u32` ranges kept in bounds by their own contracts. `usize`/`u32` overflow on maps larger than memory and the `u32` underflow of `x / 10 - 1` for a map smaller than one sector are not modelled; the latter is a precondition.
- `get_sector_id_from_ordinal` compares `column + 1 < columns - 1` for East and `row + 1 < rows - 1` for South. The model reproduces this as written (Sectors.EastStopsBeforeLastColumn).
- Integration fields in the flow field tests are given as the distance grids the tests spell out, not computed from a cost field.
- Plain getters and `_mut` accessors, such as `get_baseline`, `get_field` and `get_column`, are field reads in the model.
- GraphSearch.AStar: the contract states that a returned path is a route of the graph from the source to the target with its score. It does not state that the route is the cheapest one.
- LegacyGraphSearch.AStar: as for the newer search, the returned path is a scored route to the target, not proven cheapest.

## Findings

| source | as written | input that shows it | evidently intended | confidence | as-written member | corrected member |
|---|---|---|---|---|---|---|
| src/flowfields/sectors/sector_cost.rs:81-97 | `set_field_cell_value` writes the new cost into the baseline field and then calls `scale_costfield`. When `actor_scale` is above 1, that function only writes 255 into cells of the existing scaled field that its walks mark. It does not copy the baseline first, as `scale_all_costfields` does, so a wall placed where no walk closes a gap never reaches the scaled field. | A 10 x 10 map of one sector, actor scale 2, and a wall set at cell (5, 5). The baseline holds 255 there and the scaled field keeps 1. | The doc comment says the scaled field is updated from the baseline. Every baseline wall should therefore be a wall of the scaled field, as after `scale_all_costfields`. | not executed | SectorCost.IsolatedWallNotScaled | SectorFields.SectorCostFields.SetFieldCellValueRescaled |
