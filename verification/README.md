# A mobile robot stack, modelled and proved

The repository drives a wheeled robot: a 2D costmap with obstacle inflation, a collision monitor,
a patrol mission behind a SCADA bridge, a serial chassis driver and a coverage planner. This
project models the parts of it that hold state, arithmetic or branching worth a proof, and proves
what they are for. `dafny verify dfyconfig.toml` checks everything.

Code that updates state is modelled by classes and loops over arrays or sequence fields, with each
method proved against a function of the old state; the lemmas are about those functions.

## Files

| file | models |
|---|---|
| Basics.dfy, GridIndex.dfy | options, arithmetic and sequences; cost values, row-major indexing |
| DistanceRank.dfy, Brushfire.dfy, SingleSource.dfy | the integer distance table and the bucketed brushfire as a pure process |
| InflationSpec.dfy, InflationTheorems.dfy | one inflation pass as a function of the grid, and its laws |
| InflationLayer.dfy | the layer as an object: caches, table, bins, flags and the in-place pass |
| Line.dfy, Outline.dfy | rasterised lines, closed outlines, the step-back sort and the column fill |
| RollingWindow.dfy, Costmap.dfy, VoxelLayer.dfy | world and map coordinates, the rolling window, `Costmap2D`, the voxel grid beside it |
| Footprint.dfy, CostmapLayer.dfy | the footprint check, layer merging |
| Polygon.dfy, CollisionMonitor.dfy | the point-in-polygon test, simulated motion, action selection |
| Patrol.dfy, PatrolThreads.dfy | the mission with atomic commands and ticks; the mission as two threads of lock sections |
| PatrolRefinement.dfy | that the threads do what the atomic mission does as long as commands and ticks do not overlap |
| SerialFrame.dfy, Chassis.dfy | checked frames on a byte stream; the driver's receiver, sender and conversions |
| Coverage.dfy, CoverageShape.dfy, Spiral.dfy | the two coverage patterns, the validator, and the shape of the returned plan |

## What the code turned out to do

- A patrol stop can be lost. `_advance_patrol_goal` writes back from a snapshot taken under an
  earlier lock section, so a stop in between is overwritten and the mission reads running with no
  waypoints (`PatrolThreads.StopCanBeLost`). `PatrolThreads.StopLastsExactly` says when: exactly
  when the timer thread is past its activity check and holds, or is about to take, a snapshot it
  can resume from.
- A start can be overtaken. Between the status and the first goal of a new run the timer judges
  arrival by the last goal of an earlier run. It publishes the first waypoint before home if and only
  if the robot stands within the new tolerance of that goal (`PatrolThreads.OvertakenExactly`). So the
  first start after power-on is safe (`PatrolThreads.FirstStartIsSafe`), and the one after a patrol that
  completed at home is not while the robot stays there (`PatrolThreads.NextStartOvertaken`). Without
  overlap the threads do what the mission promises (`PatrolRefinement.SerialGoals`).
- The spiral pattern never looks at the occupancy, so its route is rejected by the validator on
  every map with an occupied or unknown cell other than the centre. It is also rejected for its size
  on every map with more than 1000 stops, whatever the occupancy: on all maps of more than 1001 cells,
  and on smaller ones such as 32 by 30 (`Spiral.PlanAndValidateSpiral`, `Spiral.SpiralLength`,
  `Spiral.LargeMapsRejected`).
- Thinning uses an absolute threshold of 0.01 square metres. Both ends of every change of row survive it
  when two cells times one stripe exceed it (`CoverageShape.PlanKeepsRowChanges`). On a finer map they
  need not: two rows of three free cells of 5 cm are returned as one diagonal
  (`CoverageShape.FineMapLosesCorners`).
- `footprintCost` closes the outline by a line walked from the first point to the last, against the
  direction of the path, and the model scores the line the code walks (`Footprint.ClosingLine`). The
  two directions visit different cells exactly at steps half way between two cells
  (`Line.LineBackwards`), as between (0, 0) and (2, 1) (`Line.WayBackDiffers`).
- A footprint cost of at least LETHAL is 254 or 255. A point off the map gives 254. Otherwise the
  first line that holds a cell of at least LETHAL decides: 254 if one of its cells is 254, and 255 if
  not, even when a later line holds a 254 (`Footprint.FootprintCollisionChecker.FootprintCost`).
- `getCollisionTime` returns if and only if the simulation step is positive, the time horizon is
  negative, or some simulated step collides (`CollisionMonitor.SettlesExactly`). The step is read
  without a check; with one that is not positive and a horizon that is not negative it hangs whenever
  no point is in sight and max_points is not negative (`CollisionMonitor.EmptySceneHangs`). For a step
  of zero the condition can be read off the scene (`CollisionMonitor.ZeroStepSettles`). The methods of
  the model ask for exactly that: the simulations they reach end.
- The slowdown ratio is read without a check. When none is negative, the order of the polygons does not
  matter (`CollisionMonitor.VelocityOrderIndependent`); with 0.5 and -0.5 it decides the direction of
  travel (`CollisionMonitor.NegativeRatioReverses`).
- With a zero time horizon the approach ratio is 0/0, which compares as false, so the polygon has no
  effect.
- The auto-charge receive buffer is sized by the value of a header byte (124), not by the frame size
  (8); all writes stay in its first eight bytes (`Chassis.TurnOnRobot.GetSensorDataNew`).

## Model

| member | source | states |
|---|---|---|
| DistanceRank.RankIsomorphism | src/navigation2-humble/nav2_costmap_2d/plugins/inflation_layer.cpp:380-418 | over the disc of the table, level order is squared-distance order, and equal levels are equal distances |
| DistanceRank.RankDense | src/navigation2-humble/nav2_costmap_2d/plugins/inflation_layer.cpp:404-415 | every level below the last is used by some offset: the levels have no gaps |
| DistanceRank.RankGap | src/navigation2-humble/nav2_costmap_2d/plugins/inflation_layer.cpp:404-415 | two consecutive distances of the disc have consecutive levels |
| DistanceRank.EndsAreDistances | src/navigation2-humble/nav2_costmap_2d/plugins/inflation_layer.cpp:383-394 | distance 0 and the rim distance (R+2)^2 both occur, so the table starts at bin 0 and ends at the last bin |
| DistanceRank.UnitStepChangesParity | src/navigation2-humble/nav2_costmap_2d/plugins/inflation_layer.cpp:285-297 | a step to a 4-neighbour changes the squared distance to a fixed seed by an odd number |
| DistanceRank.SortByNorm | src/navigation2-humble/nav2_costmap_2d/plugins/inflation_layer.cpp:396-401 | stands for std::sort: some permutation of the disc in non-decreasing distance |
| Brushfire.LevelInBins | src/navigation2-humble/nav2_costmap_2d/plugins/inflation_layer.cpp:334-338 | every distance that may be enqueued has a level inside the bin list |
| Brushfire.NeighbourChangesLevel | src/navigation2-humble/nav2_costmap_2d/plugins/inflation_layer.cpp:285-297 | a neighbour offered from a scanned cell never belongs to the bin being scanned |
| Brushfire.EnqueueStep | src/navigation2-humble/nav2_costmap_2d/plugins/inflation_layer.cpp:285-338 | a guarded enqueue keeps every bin and flag well-formed, only appends, and leaves the bin of the scanned cell alone |
| Brushfire.Visit | src/navigation2-humble/nav2_costmap_2d/plugins/inflation_layer.cpp:251-297 | visiting a cell keeps the bins, flags and processed cells consistent: each processed cell is in range, within R of a seed, seen, and processed once |
| Brushfire.ScanDone | src/navigation2-humble/nav2_costmap_2d/plugins/inflation_layer.cpp:246-299 | scanning a bin only adds processed cells of that bin's own level |
| Brushfire.ScanSeen | src/navigation2-humble/nav2_costmap_2d/plugins/inflation_layer.cpp:246-299 | after the scan of a bin every cell that waited in it is seen, and nothing seen is forgotten |
| Brushfire.BurnOrder | src/navigation2-humble/nav2_costmap_2d/plugins/inflation_layer.cpp:243-299 | cells are processed in non-decreasing distance to their own seed |
| Brushfire.KindledOk | src/navigation2-humble/nav2_costmap_2d/plugins/inflation_layer.cpp:206-241 | the state after the seed loop is a well-formed starting state |
| Brushfire.BurnedSound | src/navigation2-humble/nav2_costmap_2d/plugins/inflation_layer.cpp:212-340 | any number of seeds: each processed cell is in the grid, processed once, and its source is a seed at squared distance at most R^2; order is outward |
| Brushfire.SeedsBurnAsThemselves | src/navigation2-humble/nav2_costmap_2d/plugins/inflation_layer.cpp:231-258 | each seed is processed as its own source at distance 0 before another cell can claim it |
| SingleSource.AlwaysOffered | src/navigation2-humble/nav2_costmap_2d/plugins/inflation_layer.cpp:285-297 | one seed: once a cell of a scanned level is processed, each in-range neighbour has been offered its place |
| SingleSource.CloserNeighbour | src/navigation2-humble/nav2_costmap_2d/plugins/inflation_layer.cpp:285-297 | every cell but the seed has a grid neighbour strictly closer to the seed |
| SingleSource.ReachedByItsLevel | src/navigation2-humble/nav2_costmap_2d/plugins/inflation_layer.cpp:243-299 | one seed: every cell within R has been seen once its own level is scanned |
| SingleSource.SingleSourceExact | src/navigation2-humble/nav2_costmap_2d/plugins/inflation_layer.cpp:212-340 | one seed: every grid cell within R is processed, attributed to the seed at its true distance |
| InflationSpec.ComputeCost | src/navigation2-humble/nav2_costmap_2d/include/nav2_costmap_2d/inflation_layer.hpp:148-162 | LETHAL exactly at distance 0, INSCRIBED exactly elsewhere within the inscribed radius, beyond it 252 times the fall-off rounded down; never NO_INFORMATION |
| InflationSpec.InscribedMeans | src/navigation2-humble/nav2_costmap_2d/include/nav2_costmap_2d/inflation_layer.hpp:153-154 | in lengths: a cell is inscribed when its distance times the resolution is at most the inscribed radius |
| InflationSpec.CostAntitone | src/navigation2-humble/nav2_costmap_2d/include/nav2_costmap_2d/inflation_layer.hpp:148-162 | cost never rises with distance |
| InflationSpec.ScanListsSeeds | src/navigation2-humble/nav2_costmap_2d/plugins/inflation_layer.cpp:232-241 | everything the seed loop lists is a seed of the window attributed to itself |
| InflationSpec.ScanMissesNone | src/navigation2-humble/nav2_costmap_2d/plugins/inflation_layer.cpp:232-241 | every seed of the window is listed |
| InflationSpec.SeedCellsMatch | src/navigation2-humble/nav2_costmap_2d/plugins/inflation_layer.cpp:216-241 | bin 0 holds exactly the seeds of the clamped, enlarged window |
| InflationSpec.PaintMisses | src/navigation2-humble/nav2_costmap_2d/plugins/inflation_layer.cpp:265-283 | a cell no processed cell of the box names keeps its value |
| InflationSpec.PaintHits | src/navigation2-humble/nav2_costmap_2d/plugins/inflation_layer.cpp:265-283 | a processed cell of the box is blended exactly once, with its own cost |
| InflationSpec.SameSeedsSameScan | src/navigation2-humble/nav2_costmap_2d/plugins/inflation_layer.cpp:232-241 | the seed list depends on the grid only through which cells are seeds |
| InflationTheorems.InflatedAt | src/navigation2-humble/nav2_costmap_2d/plugins/inflation_layer.cpp:180-307 | each cell after a pass is either its old value or one blend of it with the cost of its processed cell |
| InflationTheorems.PaintedCost | src/navigation2-humble/nav2_costmap_2d/plugins/inflation_layer.cpp:231-283 | of the processed cells of the box exactly the seeds are painted at LETHAL |
| InflationTheorems.SeedsPreserved | src/navigation2-humble/nav2_costmap_2d/plugins/inflation_layer.cpp:180-307 | a pass neither creates nor destroys seeds, for both inflate_unknown settings and both inflate_around_unknown settings |
| InflationTheorems.PaintedSource | src/navigation2-humble/nav2_costmap_2d/plugins/inflation_layer.cpp:212-340 | a painted cell has a seed within R, and its cost is at most the cost at the nearest seed |
| InflationTheorems.InflationIdempotent | src/navigation2-humble/nav2_costmap_2d/plugins/inflation_layer.cpp:180-307 | a second pass with the same box and parameters changes no cell |
| InflationTheorems.InflationSound | src/navigation2-humble/nav2_costmap_2d/plugins/inflation_layer.cpp:212-340 | outside the box nothing changes, known costs never drop, a changed cell has a seed within R, and its new cost is at most the cost at the nearest seed |
| InflationTheorems.LoneSeedReaches | src/navigation2-humble/nav2_costmap_2d/plugins/inflation_layer.cpp:212-340 | one seed: each cell of the box within R is painted from the seed itself |
| InflationTheorems.InflationExactForOneSeed | src/navigation2-humble/nav2_costmap_2d/plugins/inflation_layer.cpp:180-307 | one seed: closed form of the whole result, cell by cell |
| InflationTheorems.SeedInReach | src/navigation2-humble/nav2_costmap_2d/plugins/inflation_layer.cpp:216-241 | any obstacle of the grid within R of a cell of the box is among the seeds of the pass, also when it lies outside the box |
| InflationTheorems.NoSeedNoChange | src/navigation2-humble/nav2_costmap_2d/plugins/inflation_layer.cpp:180-307 | without a seed in the window no cell changes |
| InflationTheorems.LoneObstacle | src/navigation2-humble/nav2_costmap_2d/plugins/inflation_layer.cpp:180-307 | one obstacle on the whole grid: known cells of the box within R become the maximum, unknown ones stay 255 exactly beyond the inscribed radius, or with inflate_unknown exactly where the cost is 0; nothing else changes |
| InflationLayer.InflationLayer.constructor | src/navigation2-humble/nav2_costmap_2d/plugins/inflation_layer.cpp:61-77 | every parameter is taken over and the caches fit the radius in cells |
| InflationLayer.InflationLayer.MatchSize | src/navigation2-humble/nav2_costmap_2d/plugins/inflation_layer.cpp:120-129 | new resolution, new radius in cells, caches rebuilt for them, one clear flag per cell, other parameters kept |
| InflationLayer.InflationLayer.OnFootprintChanged | src/navigation2-humble/nav2_costmap_2d/plugins/inflation_layer.cpp:164-177 | new inscribed radius, caches rebuilt for it, everything else kept |
| InflationLayer.CellDistanceRoundsUp | src/navigation2-humble/nav2_costmap_2d/src/costmap_2d.cpp:255-259 | the radius in cells covers the distance and is the least that does; a negative distance counts as none |
| InflationLayer.InflationLayer.ComputeCaches | src/navigation2-humble/nav2_costmap_2d/plugins/inflation_layer.cpp:342-378 | afterwards distances, costs, table and bin count all match the current radius, although the distances are rebuilt only on a radius change |
| InflationLayer.InflationLayer.FillDistances | src/navigation2-humble/nav2_costmap_2d/plugins/inflation_layer.cpp:354-361 | the distance cache holds the distance of each offset of the quadrant |
| InflationLayer.InflationLayer.FillCosts | src/navigation2-humble/nav2_costmap_2d/plugins/inflation_layer.cpp:366-370 | the cost cache holds the cost at each offset of the quadrant |
| InflationLayer.InflationLayer.GenerateIntegerDistances | src/navigation2-humble/nav2_costmap_2d/plugins/inflation_layer.cpp:380-418 | the table maps each disc offset to the rank of its squared distance; the returned level plus one is the number of bins |
| InflationLayer.DiscPoints | src/navigation2-humble/nav2_costmap_2d/plugins/inflation_layer.cpp:386-394 | the points are exactly the offsets of the disc |
| InflationLayer.RankPoints | src/navigation2-humble/nav2_costmap_2d/plugins/inflation_layer.cpp:403-415 | the ranking loop writes the rank of each sorted point; its last level is the rank of the rim |
| InflationLayer.InflationLayer.DistanceLookup | src/navigation2-humble/nav2_costmap_2d/include/nav2_costmap_2d/inflation_layer.hpp:190-205 | the cache read at (&#124;dx&#124;, &#124;dy&#124;) is the true squared distance, in bounds |
| InflationLayer.InflationLayer.CostLookup | src/navigation2-humble/nav2_costmap_2d/include/nav2_costmap_2d/inflation_layer.hpp:207-214 | the cache read at (&#124;dx&#124;, &#124;dy&#124;) is the cost at the true distance, in bounds |
| InflationLayer.InflationLayer.Enqueue | src/navigation2-humble/nav2_costmap_2d/plugins/inflation_layer.cpp:318-340 | the live bins change exactly as the pure offer says; no index leaves flags, caches, table or bins |
| InflationLayer.InflationLayer.BinOf | src/navigation2-humble/nav2_costmap_2d/plugins/inflation_layer.cpp:334-338 | the table entry read is the level of the distance and an index of the bin list |
| InflationLayer.InflationLayer.CollectSeeds | src/navigation2-humble/nav2_costmap_2d/plugins/inflation_layer.cpp:232-241 | the seed loop returns the pure seed list of the window |
| InflationLayer.InflationLayer.CollectRow | src/navigation2-humble/nav2_costmap_2d/plugins/inflation_layer.cpp:234-240 | the inner seed loop adds the seeds of one row |
| InflationLayer.InflationLayer.Spread | src/navigation2-humble/nav2_costmap_2d/plugins/inflation_layer.cpp:285-297 | one guarded neighbour call: the bins change as one pure enqueue step |
| InflationLayer.InflationLayer.WriteCost | src/navigation2-humble/nav2_costmap_2d/plugins/inflation_layer.cpp:265-283 | one cell is blended inside the box, nothing is written outside |
| InflationLayer.InflationLayer.PaintCellNow | src/navigation2-humble/nav2_costmap_2d/plugins/inflation_layer.cpp:265-283 | the master grid stays the painting of the cells processed so far |
| InflationLayer.InflationLayer.VisitCell | src/navigation2-humble/nav2_costmap_2d/plugins/inflation_layer.cpp:250-298 | one loop body equals one pure visit, on bins, flags and grid together |
| InflationLayer.InflationLayer.BurnBin | src/navigation2-humble/nav2_costmap_2d/plugins/inflation_layer.cpp:247-298 | the loop over one live bin equals the pure scan of it |
| InflationLayer.InflationLayer.BurnBins | src/navigation2-humble/nav2_costmap_2d/plugins/inflation_layer.cpp:246-299 | the loop over the live bins equals the pure brushfire, and the grid is its painting |
| InflationLayer.InflationLayer.Inflate | src/navigation2-humble/nav2_costmap_2d/plugins/inflation_layer.cpp:206-299 | the pass writes the inflation of the grid it found |
| InflationLayer.InflationLayer.UpdateCosts | src/navigation2-humble/nav2_costmap_2d/plugins/inflation_layer.cpp:179-307 | the grid becomes the pure inflation of its old content, or is untouched when disabled or of radius 0; bins are empty again |
| GridIndex.IdxInjective | src/navigation2-humble/nav2_costmap_2d/include/nav2_costmap_2d/costmap_2d.hpp:212-215 | distinct cells have distinct buffer indices |
| GridIndex.IdxOnto | src/navigation2-humble/nav2_costmap_2d/include/nav2_costmap_2d/costmap_2d.hpp:223-227 | every buffer index is the index of a cell of the grid |
| GridIndex.IdxRoundTrip | src/navigation2-humble/nav2_costmap_2d/include/nav2_costmap_2d/costmap_2d.hpp:223-227 | indexToCells undoes getIndex |
| Line.LineEnds | src/navigation2-humble/nav2_costmap_2d/include/nav2_costmap_2d/costmap_2d.hpp:430-508 | a line starts and ends at its two cells |
| Line.LineConnected | src/navigation2-humble/nav2_costmap_2d/include/nav2_costmap_2d/costmap_2d.hpp:491-508 | consecutive cells of a line touch, at most diagonally |
| Line.LineInRectangle | src/navigation2-humble/nav2_costmap_2d/include/nav2_costmap_2d/costmap_2d.hpp:430-508 | a line stays in the rectangle of its ends, so inside the map |
| Line.LineCoversColumn | src/navigation2-humble/nav2_costmap_2d/include/nav2_costmap_2d/costmap_2d.hpp:430-508 | a line crosses every column between its ends |
| Line.LineIsNearest | src/navigation2-humble/nav2_costmap_2d/include/nav2_costmap_2d/costmap_2d.hpp:491-508 | no cell of a line is further than half a cell from the ideal line along the minor axis |
| Line.MinorBackwards | src/navigation2-humble/nav2_costmap_2d/include/nav2_costmap_2d/costmap_2d.hpp:491-508 | counted from either end a step rounds to the same place, unless it lies exactly half way |
| Line.LineBackwards | src/navigation2-humble/nav2_util/include/nav2_util/line_iterator.hpp:56-123 | a cell of a line is met again on the way back if and only if its step is no tie |
| Line.WayBackDiffers | src/navigation2-humble/nav2_util/include/nav2_util/line_iterator.hpp:56-123 | from (0,0) to (2,1) the line passes (1,1), back it passes (1,0) |
| Line.CarryStep | src/navigation2-humble/nav2_util/include/nav2_util/line_iterator.hpp:112-123 | the error accumulator and its carry compute the rounded quotient of the ideal line |
| Line.LineIterator.constructor | src/navigation2-humble/nav2_util/include/nav2_util/line_iterator.hpp:56-98 | the iterator starts on the first cell of the line |
| Line.LineIterator.Advance | src/navigation2-humble/nav2_util/include/nav2_util/line_iterator.hpp:112-123 | each advance moves to the next cell of the line, in every octant |
| Outline.PathCoversColumn | src/navigation2-humble/nav2_costmap_2d/src/costmap_2d.cpp:415-430 | a path between vertices on either side of a column has a cell in it |
| Outline.ClosedOutlineCoversTwice | src/navigation2-humble/nav2_costmap_2d/src/costmap_2d.cpp:415-499 | a column between two vertices of a closed outline holds at least two outline entries |
| Outline.OutlineColumns | src/navigation2-humble/nav2_costmap_2d/src/costmap_2d.cpp:415-499 | every column between two outline cells holds at least two outline entries |
| Outline.OutlineOfEdges | src/navigation2-humble/nav2_costmap_2d/src/costmap_2d.cpp:415-430 | the outline holds the cells of every edge, the one back to the start included, and no others |
| Outline.SwapRemovesInversion | src/navigation2-humble/nav2_costmap_2d/src/costmap_2d.cpp:444-459 | a swap of the step-back sort removes exactly one inversion: the termination measure |
| Outline.SortByX | src/navigation2-humble/nav2_costmap_2d/src/costmap_2d.cpp:444-459 | terminates on every non-empty list, with a permutation sorted by x |
| Outline.ScanColumn | src/navigation2-humble/nav2_costmap_2d/src/costmap_2d.cpp:464-487 | reading a column finds its exact lowest and highest entry and stops at the first entry of the next column |
| Outline.PushColumn | src/navigation2-humble/nav2_costmap_2d/src/costmap_2d.cpp:489-497 | appends exactly the cells between the two extremes |
| Outline.FillColumn | src/navigation2-humble/nav2_costmap_2d/src/costmap_2d.cpp:461-498 | one column: the scan stays aligned with the sorted outline although the list has grown |
| Outline.ScanColumns | src/navigation2-humble/nav2_costmap_2d/src/costmap_2d.cpp:461-498 | the early exit of the column loop is never taken; everything up to the last column is filled |
| Outline.FillColumns | src/navigation2-humble/nav2_costmap_2d/src/costmap_2d.cpp:461-498 | the list keeps the outline in front and its cells are exactly the column hull |
| RollingWindow.MapWorldRoundTrip | src/navigation2-humble/nav2_costmap_2d/src/costmap_2d.cpp:281-300 | the centre of a cell maps back to the cell |
| RollingWindow.AlignedWithinCell | src/navigation2-humble/nav2_costmap_2d/src/costmap_2d.cpp:330-342 | the lattice-aligned new origin is less than one cell from the requested one |
| RollingWindow.ShiftedMapCell | src/navigation2-humble/nav2_costmap_2d/src/costmap_2d.cpp:287-300 | the cell of a world point moves by exactly the shift, with the opposite sign |
| RollingWindow.WorldToMapExact | src/navigation2-humble/nav2_costmap_2d/src/costmap_2d.cpp:287-300 | a world point maps to the one cell of the grid whose half-open square contains it, and to none otherwise |
| RollingWindow.CellOfBelow | src/navigation2-humble/nav2_costmap_2d/src/costmap_2d.cpp:334-335 | below the origin the cell number is rounded towards zero |
| RollingWindow.AlignedBetween | src/navigation2-humble/nav2_costmap_2d/src/costmap_2d.cpp:330-342 | the aligned origin lies between the old origin and the requested one |
| RollingWindow.RollKeepsWorld | src/navigation2-humble/nav2_costmap_2d/src/costmap_2d.cpp:330-384 | a world point inside the window before and after reads the same value, for every shift |
| RollingWindow.RollExposesDefault | src/navigation2-humble/nav2_costmap_2d/src/costmap_2d.cpp:330-384 | a cell that was not in the old window holds the default |
| RollingWindow.RollRunContent | src/navigation2-humble/nav2_costmap_2d/src/costmap_2d.cpp:330-384 | over any run of rolls a world cell holds its first value exactly when it never left the window, and the default otherwise |
| RollingWindow.CopyMapRegion | src/navigation2-humble/nav2_costmap_2d/include/nav2_costmap_2d/costmap_2d.hpp:382-400 | copies exactly the rectangle and leaves the rest of the destination alone, in bounds |
| RollingWindow.CopyRow | src/navigation2-humble/nav2_costmap_2d/include/nav2_costmap_2d/costmap_2d.hpp:396-399 | one memcpy writes exactly the row segment |
| Costmap.TwoCopiesRoll | src/navigation2-humble/nav2_costmap_2d/src/costmap_2d.cpp:344-384 | copying the overlap out and back at the shifted place is a roll, for every shift |
| Costmap.Costmap2D.constructor | src/navigation2-humble/nav2_costmap_2d/src/costmap_2d.cpp:49-60 | a fresh grid of default values, which it remembers |
| Costmap.Costmap2D.ResetMaps | src/navigation2-humble/nav2_costmap_2d/src/costmap_2d.cpp:124-128 | every cell becomes the default value |
| Costmap.Costmap2D.UpdateOrigin | src/navigation2-humble/nav2_costmap_2d/src/costmap_2d.cpp:330-384 | the frame moves by the truncated shift, the grid is rolled by it, and the new origin is within one cell of the request, between it and the old one |
| Costmap.Costmap2D.Roll | src/navigation2-humble/nav2_costmap_2d/src/costmap_2d.cpp:344-384 | the buffer becomes the roll of its old content |
| Costmap.Costmap2D.WorldToMap | src/navigation2-humble/nav2_costmap_2d/src/costmap_2d.cpp:287-300 | agrees with the frame's mapping, rejecting points below the origin or past the size |
| Costmap.Costmap2D.Bresenham2D | src/navigation2-humble/nav2_costmap_2d/include/nav2_costmap_2d/costmap_2d.hpp:490-508 | the incremental offsets visit the cells given by the quotient form, cut off at the maximum length |
| Costmap.Costmap2D.RaytraceLine | src/navigation2-humble/nav2_costmap_2d/include/nav2_costmap_2d/costmap_2d.hpp:430-488 | nothing below the minimum length; otherwise the line from where it is reached, cut to the share the maximum length allows |
| Costmap.Costmap2D.TraceFrom | src/navigation2-humble/nav2_costmap_2d/include/nav2_costmap_2d/costmap_2d.hpp:457-483 | the dominant axis is traced first to last, up to a number of cells |
| Costmap.Costmap2D.RaytraceDefault | src/navigation2-humble/nav2_costmap_2d/include/nav2_costmap_2d/costmap_2d.hpp:430-435 | with the default lengths, the whole line between two cells of the map |
| Costmap.RayStartBetween | src/navigation2-humble/nav2_costmap_2d/include/nav2_costmap_2d/costmap_2d.hpp:446-456 | the shifted start of a ray lies between its two ends, so on the map |
| Costmap.RayStartExact | src/navigation2-humble/nav2_costmap_2d/include/nav2_costmap_2d/costmap_2d.hpp:446-456 | the start is at the share minimum / length of the way, rounded down, along each axis |
| Costmap.ScaledLengthExact | src/navigation2-humble/nav2_costmap_2d/include/nav2_costmap_2d/costmap_2d.hpp:468-483 | a maximum shorter than the line allows the share maximum / length of its cells, rounded down |
| Costmap.DefaultLengths | src/navigation2-humble/nav2_costmap_2d/include/nav2_costmap_2d/costmap_2d.hpp:430-483 | no minimum and a maximum no shorter than the line give the whole line |
| Costmap.RayWithinMaximum | src/navigation2-humble/nav2_costmap_2d/include/nav2_costmap_2d/costmap_2d.hpp:468-483 | at most the maximum length plus one cells are traced, whatever the minimum |
| Costmap.Costmap2D.PolygonOutlineCells | src/navigation2-humble/nav2_costmap_2d/src/costmap_2d.cpp:415-430 | the closed outline, closing edge included |
| Costmap.Costmap2D.ConvexFillCells | src/navigation2-humble/nav2_costmap_2d/src/costmap_2d.cpp:432-499 | nothing below three vertices; otherwise exactly the column hull of the outline |
| Costmap.Costmap2D.SetConvexPolygonCost | src/navigation2-humble/nav2_costmap_2d/src/costmap_2d.cpp:386-413 | true exactly when all vertices are on the map; then exactly the column hull changes, otherwise nothing does |
| Costmap.Costmap2D.PaintCells | src/navigation2-humble/nav2_costmap_2d/src/costmap_2d.cpp:405-410 | exactly the listed cells are written |
| Costmap.SortedColumns | src/navigation2-humble/nav2_costmap_2d/src/costmap_2d.cpp:415-464 | the sorted outline of any polygon meets the assumption of the column scan |
| Costmap.HullInMap | src/navigation2-humble/nav2_costmap_2d/src/costmap_2d.cpp:386-413 | the hull of a polygon of map cells lies in the map |
| VoxelLayer.VoxelLayer.constructor | src/navigation2-humble/nav2_voxel_grid/src/voxel_grid.cpp:39-63 | both grids have one size and place and are blank |
| VoxelLayer.VoxelLayer.MatchSize | src/navigation2-humble/nav2_costmap_2d/plugins/voxel_layer.cpp:119-125 | both grids take the master's size and place and are blank |
| VoxelLayer.VoxelLayer.ResetMaps | src/navigation2-humble/nav2_costmap_2d/plugins/voxel_layer.cpp:134-142 | both grids are reset together |
| VoxelLayer.VoxelLayer.UpdateOrigin | src/navigation2-humble/nav2_costmap_2d/plugins/voxel_layer.cpp:409-474 | costs and voxel columns are rolled by the same shift and the frame moves with them, to between the old origin and the request |
| VoxelLayer.VoxelLayer.RollBoth | src/navigation2-humble/nav2_costmap_2d/plugins/voxel_layer.cpp:430-474 | both buffers become rolls of their old contents by one and the same shift |
| VoxelLayer.RollsInLockstep | src/navigation2-humble/nav2_costmap_2d/plugins/voxel_layer.cpp:409-474 | cost and voxel column of a world point come from the same old cell or are both reset |
| VoxelLayer.ResetIsUnknown | src/navigation2-humble/nav2_voxel_grid/src/voxel_grid.cpp:172-192 | a reset column reads unknown at each of its sixteen levels |
| Footprint.SummariseBoth | src/navigation2-humble/nav2_costmap_2d/src/footprint_collision_checker.cpp:69-85 | early-exit summaries of two lists combine by maximum |
| Footprint.SummaryInValues | src/navigation2-humble/nav2_costmap_2d/src/footprint_collision_checker.cpp:87-121 | in buffer values: at least 254 exactly when a listed cell is, and below that their maximum |
| Footprint.OutlineIsAllEdges | src/navigation2-humble/nav2_costmap_2d/src/footprint_collision_checker.cpp:57-85 | the cells scored are those of every edge, the closing one included, and no others |
| Footprint.LethalPrefix | src/navigation2-humble/nav2_costmap_2d/src/footprint_collision_checker.cpp:75-78 | stopping at a lethal prefix gives a correct summary of the whole outline |
| Footprint.ClosingLine | src/navigation2-humble/nav2_costmap_2d/src/footprint_collision_checker.cpp:81-84 | the closing line, walked from the first point to the last, completes the summary |
| Footprint.DecidesOneMore | src/navigation2-humble/nav2_costmap_2d/src/footprint_collision_checker.cpp:69-85 | one more line: the first line with a cell of at least LETHAL decides between 254 and 255 |
| Footprint.DecidesForGood | src/navigation2-humble/nav2_costmap_2d/src/footprint_collision_checker.cpp:69-85 | once a line has reached LETHAL, later lines cannot change the result |
| Footprint.DecidedEarly | src/navigation2-humble/nav2_costmap_2d/src/footprint_collision_checker.cpp:75-78 | the early return has the value the whole outline would have |
| Footprint.FootprintCollisionChecker.PointCost | src/navigation2-humble/nav2_costmap_2d/src/footprint_collision_checker.cpp:116-120 | the cost of a map cell |
| Footprint.FootprintCollisionChecker.LineCost | src/navigation2-humble/nav2_costmap_2d/src/footprint_collision_checker.cpp:87-107 | at least LETHAL exactly when a cell of the line is, 254 exactly when it holds a cell of 254; below that the exact maximum |
| Footprint.FootprintCollisionChecker.FootprintCost | src/navigation2-humble/nav2_costmap_2d/src/footprint_collision_checker.cpp:47-85 | LETHAL when a point is off the map; otherwise at least LETHAL exactly when an outline cell is, 254 or 255 as the first such line decides, and below that the exact maximum |
| CostmapLayer.CostmapLayer.MaxCell | src/navigation2-humble/nav2_costmap_2d/src/costmap_layer.cpp:124-133 | one max-merge of a cell |
| CostmapLayer.CostmapLayer.AddCell | src/navigation2-humble/nav2_costmap_2d/src/costmap_layer.cpp:198-214 | one capped addition of a cell |
| CostmapLayer.CostmapLayer.UpdateWithMax | src/navigation2-humble/nav2_costmap_2d/src/costmap_layer.cpp:109-136 | every cell of the box is max-merged once, every other cell unchanged, nothing when disabled |
| CostmapLayer.CostmapLayer.UpdateWithAddition | src/navigation2-humble/nav2_costmap_2d/src/costmap_layer.cpp:185-217 | every cell of the box is added once, every other cell unchanged, nothing when disabled |
| CostmapLayer.MaxMergesJoin | src/navigation2-humble/nav2_costmap_2d/src/costmap_layer.cpp:109-136 | any list of max-merges is the join of the values, NO_INFORMATION as bottom |
| CostmapLayer.MaxMergesOrderFree | src/navigation2-humble/nav2_costmap_2d/src/costmap_layer.cpp:109-136 | max-merging depends only on which values occur, not on order or repeats |
| CostmapLayer.AdditionMergesClosedForm | src/navigation2-humble/nav2_costmap_2d/src/costmap_layer.cpp:185-217 | additions into an unknown cell: unknown for none, the value for one, min(252, sum) for more; into a known cell: its value for none, min(252, value + sum) otherwise |
| CostmapLayer.AdditionMergesOrderFree | src/navigation2-humble/nav2_costmap_2d/src/costmap_layer.cpp:185-217 | additions do not depend on the layer order, whatever the cell holds at the start |
| CostmapLayer.GridMerges | src/navigation2-humble/nav2_costmap_2d/src/costmap_layer.cpp:109-217 | over any list of calls with their own boxes, each cell is the merge, in order, of exactly the enabled layers whose box contains it |
| CostmapLayer.ContributionsOfPermutation | src/navigation2-humble/nav2_costmap_2d/src/costmap_layer.cpp:109-217 | reordering the calls reorders what they contribute to a cell |
| CostmapLayer.GridOrderFree | src/navigation2-humble/nav2_costmap_2d/src/costmap_layer.cpp:109-217 | the same calls in any order end in the same grid, for both rules and from every start |
| Polygon.FlipsSymmetric | src/navigation2-humble/nav2_collision_monitor/src/polygon.cpp:362-374 | the straddle test and the crossing give the same answer for both directions of an edge |
| Polygon.FlipsBySide | src/navigation2-humble/nav2_collision_monitor/src/polygon.cpp:362-374 | a straddling edge flips exactly when the point is on the inner side of its direction |
| Polygon.ChordAdditive | src/navigation2-humble/nav2_collision_monitor/src/polygon.cpp:348-378 | the answer is the XOR of the answers for the two polygons cut by any chord between vertices |
| Polygon.RotationInvariant | src/navigation2-humble/nav2_collision_monitor/src/polygon.cpp:348-378 | the answer does not depend on the first vertex |
| Polygon.ReversalInvariant | src/navigation2-humble/nav2_collision_monitor/src/polygon.cpp:348-378 | the answer does not depend on the vertex order's direction |
| Polygon.StraddleParity | src/navigation2-humble/nav2_collision_monitor/src/polygon.cpp:355-377 | where all straddling edges flip, parity is decided by the ends: a closed loop straddles evenly often |
| Polygon.OutsideBoxIsOutside | src/navigation2-humble/nav2_collision_monitor/src/polygon.cpp:348-378 | nothing outside the bounding box is inside, for every closed polygon |
| Polygon.TriangleIsStrict | src/navigation2-humble/nav2_collision_monitor/src/polygon.cpp:348-378 | for a triangle and a point off its edge lines the test is strict containment |
| Polygon.TriangleByCoordinates | src/navigation2-humble/nav2_collision_monitor/src/polygon.cpp:348-378 | in plain coordinates: with no barycentric coordinate 0, a point is inside a proper triangle exactly when all three are positive |
| Polygon.EvenOddRule | src/navigation2-humble/nav2_collision_monitor/src/polygon.cpp:348-378 | for every polygon and a point off the fan's lines the test is the parity of the fan triangles that contain it |
| CollisionMonitor.Polygon.UpdatePolygon | src/navigation2-humble/nav2_collision_monitor/src/polygon.cpp:132-152 | the outline becomes the footprint when one is held, otherwise stays |
| CollisionMonitor.Polygon.IsPointInside | src/navigation2-humble/nav2_collision_monitor/src/polygon.cpp:348-378 | the one-pass loop with a trailing index computes the parity of the closed polygon |
| CollisionMonitor.Polygon.GetPointsInside | src/navigation2-humble/nav2_collision_monitor/src/polygon.cpp:154-163 | the number of points that lie inside |
| CollisionMonitor.CountIsCardinality | src/navigation2-humble/nav2_collision_monitor/src/polygon.cpp:154-163 | the count is the number of indices whose point lies inside |
| CollisionMonitor.FarSceneCountsNone | src/navigation2-humble/nav2_collision_monitor/src/polygon.cpp:154-163 | a scene outside the bounding box of an outline has no point inside it |
| CollisionMonitor.SeenFromPose | src/navigation2-humble/nav2_collision_monitor/src/kinematics.cpp:22-42 | what lies ahead of a pose and left of it is seen at (ahead, left) |
| CollisionMonitor.DrivesAlongHeading | src/navigation2-humble/nav2_collision_monitor/src/kinematics.cpp:44-68 | the simulated robot turns at the commanded rate, its velocity is the command turned by its heading, and each step moves it by that velocity |
| CollisionMonitor.FirstRoundLooksAhead | src/navigation2-humble/nav2_collision_monitor/src/polygon.cpp:177-188 | the robot is moved before it is looked at: round 0 judges the scene one step ahead |
| CollisionMonitor.Polygon.GetCollisionTime | src/navigation2-humble/nav2_collision_monitor/src/polygon.cpp:165-193 | for every input on which the loop ends: the time of the first simulated step with too many points inside, or -1 |
| CollisionMonitor.FirstIsUnique | src/navigation2-humble/nav2_collision_monitor/src/polygon.cpp:165-193 | at most one step is the first collision |
| CollisionMonitor.FirstExit | src/navigation2-humble/nav2_collision_monitor/src/polygon.cpp:177-188 | a round that would end the loop means that a first one does |
| CollisionMonitor.SettlesExactly | src/navigation2-humble/nav2_collision_monitor/src/polygon.cpp:177-188 | the simulation loop ends if and only if the step is positive, the horizon is negative, or some simulated step collides |
| CollisionMonitor.ZeroStepSettles | src/navigation2-humble/nav2_collision_monitor/src/polygon.cpp:177-188 | with a step of zero the loop ends if and only if the horizon is negative or the scene as it stands collides |
| CollisionMonitor.EmptySceneHangs | src/navigation2-humble/nav2_collision_monitor/src/polygon.cpp:177-188 | with no points in sight, a step that is not positive and a horizon that is not negative the loop never ends |
| CollisionMonitor.PositiveStepsAnswer | src/navigation2-humble/nav2_collision_monitor/src/collision_monitor_node.cpp:352-370 | positive steps on all approach polygons make the polygon loop return for every scene and command |
| CollisionMonitor.ApproachRatio | src/navigation2-humble/nav2_collision_monitor/src/collision_monitor_node.cpp:415-439 | the share of the speed kept by an approach lies in [0, 1] |
| CollisionMonitor.StopIsFinal | src/navigation2-humble/nav2_collision_monitor/src/collision_monitor_node.cpp:352-356 | leaving the polygon loop at STOP changes nothing: later polygons cannot alter it |
| CollisionMonitor.SafestAction | src/navigation2-humble/nav2_collision_monitor/src/collision_monitor_node.cpp:347-439 | a triggered STOP polygon anywhere gives STOP at zero velocity; otherwise the result is a proposal or the input, of least norm among all of them |
| CollisionMonitor.OnePointStops | src/navigation2-humble/nav2_collision_monitor/src/collision_monitor_node.cpp:386-413 | one point inside a STOP polygon with max_points 0 stops the robot, whatever else is configured |
| CollisionMonitor.FarSceneDoesNothing | src/navigation2-humble/nav2_collision_monitor/src/collision_monitor_node.cpp:386-413 | with stop and slowdown polygons, a scene outside all their bounding boxes leaves the command alone |
| CollisionMonitor.ProposalMeans | src/navigation2-humble/nav2_collision_monitor/src/collision_monitor_node.cpp:386-439 | a slowdown asks for its share of the command, an approach for the velocity that spreads the way to the collision over the horizon |
| CollisionMonitor.SlowerIsShorter | src/navigation2-humble/nav2_collision_monitor/src/collision_monitor_node.cpp:347-439 | velocities are compared by their length, linear and angular parts together |
| CollisionMonitor.OrderIndependent | src/navigation2-humble/nav2_collision_monitor/src/collision_monitor_node.cpp:347-372 | two orders of the same polygons agree on stopping and on the remaining speed, whatever the ratios |
| CollisionMonitor.VelocityOrderIndependent | src/navigation2-humble/nav2_collision_monitor/src/collision_monitor_node.cpp:347-439 | when no slowdown ratio is negative, two orders agree on the velocity itself |
| CollisionMonitor.NegativeRatioReverses | src/navigation2-humble/nav2_collision_monitor/src/collision_monitor_node.cpp:386-413 | with ratios 0.5 and -0.5 the order decides whether the robot drives forwards or backwards |
| CollisionMonitor.CollisionMonitor.ProcessStopSlowdown | src/navigation2-humble/nav2_collision_monitor/src/collision_monitor_node.cpp:386-413 | one STOP or SLOWDOWN polygon: the pure choice, and whether it changed the action |
| CollisionMonitor.CollisionMonitor.ProcessApproach | src/navigation2-humble/nav2_collision_monitor/src/collision_monitor_node.cpp:415-439 | one APPROACH polygon whose simulation ends: it adopts the footprint, and the pure choice says whether and how the action changes |
| CollisionMonitor.CollisionMonitor.Consider | src/navigation2-humble/nav2_collision_monitor/src/collision_monitor_node.cpp:358-369 | dispatch on the action type |
| CollisionMonitor.CollisionMonitor.SelectAction | src/navigation2-humble/nav2_collision_monitor/src/collision_monitor_node.cpp:347-372 | the loop over the polygons equals the pure choice over all of them, whenever the approach polygons it reaches end their simulation |
| CollisionMonitor.CollisionMonitor.Process | src/navigation2-humble/nav2_collision_monitor/src/collision_monitor_node.cpp:329-384 | the chosen action is published, unless robot and command have been stopped longer than the timeout |
| CollisionMonitor.CollisionMonitor.PublishVelocity | src/navigation2-humble/nav2_collision_monitor/src/collision_monitor_node.cpp:154-175 | publication and stop stamp, exactly |
| Patrol.PatrolMission.constructor | src/wheeltec_scada_bridge/wheeltec_scada_bridge/node.py:138-152 | the mission at power-on |
| Patrol.PatrolMission.SetPatrolState | src/wheeltec_scada_bridge/wheeltec_scada_bridge/node.py:540-556 | only the status changes |
| Patrol.PatrolMission.PublishGoal | src/wheeltec_scada_bridge/wheeltec_scada_bridge/node.py:562-574 | the goal is published, remembered and stamped |
| Patrol.PatrolMission.NormalizeWaypoints | src/wheeltec_scada_bridge/wheeltec_scada_bridge/node.py:587-595 | succeeds exactly when every entry parses, in order |
| Patrol.PatrolMission.ParseStart | src/wheeltec_scada_bridge/wheeltec_scada_bridge/node.py:576-606 | yields the plan exactly for a well-formed request |
| Patrol.PlainRequest | src/wheeltec_scada_bridge/wheeltec_scada_bridge/node.py:576-606 | plain numbers are taken over as they are; a missing yaw is 0 and a missing tolerance 0.25 |
| Patrol.Clamp | src/wheeltec_scada_bridge/wheeltec_scada_bridge/node.py:373-374 | the value of the range nearest to the given one |
| Patrol.PatrolMission.StartPatrol | src/wheeltec_scada_bridge/wheeltec_scada_bridge/node.py:576-626 | accepted exactly for a well-formed request while no mission is active; a refused request changes nothing |
| Patrol.PatrolMission.BeginPatrol | src/wheeltec_scada_bridge/wheeltec_scada_bridge/node.py:608-623 | the whole state after an accepted start |
| Patrol.PatrolMission.StopPatrol | src/wheeltec_scada_bridge/wheeltec_scada_bridge/node.py:628-637 | the whole state after a stop |
| Patrol.PatrolMission.AdvancePatrolGoal | src/wheeltec_scada_bridge/wheeltec_scada_bridge/node.py:649-707 | every branch: which goal, status and counters follow; no index is out of range |
| Patrol.PatrolMission.PatrolTick | src/wheeltec_scada_bridge/wheeltec_scada_bridge/node.py:709-725 | arrival first, then the timeout; an active mission publishes or completes only when the robot is within the tolerance of its last goal along each axis |
| Patrol.StandsWithinTolerance | src/wheeltec_scada_bridge/wheeltec_scada_bridge/node.py:639-647 | arrival means that the distance to the last goal is at most the tolerance |
| Patrol.StandsNearOnBothAxes | src/wheeltec_scada_bridge/wheeltec_scada_bridge/node.py:639-647 | a robot that has arrived is within the tolerance along each axis |
| Patrol.PatrolMission.Interrupt | src/wheeltec_scada_bridge/wheeltec_scada_bridge/node.py:854-882 | patrol_stop and nav_goal stop the mission exactly when it is active |
| Patrol.RepeatAt | src/wheeltec_scada_bridge/wheeltec_scada_bridge/node.py:665-699 | goal i of loop l is goal (l-1)*&#124;W&#124;+i of the repeated route |
| Patrol.ItineraryAt | src/wheeltec_scada_bridge/wheeltec_scada_bridge/node.py:649-707 | where each waypoint of each loop stands in the itinerary home, W repeated L times, home |
| Patrol.AdvanceStep | src/wheeltec_scada_bridge/wheeltec_scada_bridge/node.py:649-707 | an advance goes exactly one goal further along the itinerary, or to completed after the last |
| Patrol.StepTraced | src/wheeltec_scada_bridge/wheeltec_scada_bridge/node.py:576-725 | every command and tick keeps the record of runs and published goals exact |
| Patrol.PublishedGoals | src/wheeltec_scada_bridge/wheeltec_scada_bridge/node.py:576-725 | over every list of events: published goals are prefixes of the itineraries, one longer than the arrivals; completed exactly at arrival &#124;W&#124;*L+2 |
| Patrol.StaysOnSchedule | src/wheeltec_scada_bridge/wheeltec_scada_bridge/node.py:709-725 | on any clock, with ticks at most g apart the current goal was sent at most arrivals*(180+g) seconds after the start |
| Patrol.RunEndsInTime | src/wheeltec_scada_bridge/wheeltec_scada_bridge/node.py:576-725 | on any clock, a run still active at its last tick started at most (&#124;W&#124;*L+2)*(180+g) seconds before |
| Patrol.AllowanceInSeconds | src/wheeltec_scada_bridge/wheeltec_scada_bridge/node.py:709-725 | the allowance is 180 seconds and one gap between ticks for each goal |
| PatrolThreads.AdvanceInBounds | src/wheeltec_scada_bridge/wheeltec_scada_bridge/node.py:649-707 | no branch of an advance indexes outside its own snapshot |
| PatrolThreads.NextKeepsInv | src/wheeltec_scada_bridge/wheeltec_scada_bridge/node.py:608-725 | each lock section of either thread keeps the shared invariant |
| PatrolThreads.SharedInvariant | src/wheeltec_scada_bridge/wheeltec_scada_bridge/node.py:608-725 | every state of every interleaving has no waypoints and 0 loops, or at least 2 waypoints and some loops; every advance is in bounds |
| PatrolThreads.TimerProceeds | src/wheeltec_scada_bridge/wheeltec_scada_bridge/node.py:649-725 | the timer thread is never stuck, wherever the robot is |
| PatrolThreads.LiveRevives | src/wheeltec_scada_bridge/wheeltec_scada_bridge/node.py:649-725 | a timer past its check with a snapshot to resume from, taken or about to be taken at the last goal, reactivates a stopped mission |
| PatrolThreads.StopLastsExactly | src/wheeltec_scada_bridge/wheeltec_scada_bridge/node.py:628-725 | an inactive mission can become active again without a command if and only if the timer is live |
| PatrolThreads.SettledForever | src/wheeltec_scada_bridge/wheeltec_scada_bridge/node.py:608-725 | a stop with no live timer lasts under every interleaving until a new start |
| PatrolThreads.StopBetweenTicksSettles | src/wheeltec_scada_bridge/wheeltec_scada_bridge/node.py:628-637 | a stop that clears the mission while the timer holds no snapshot settles it |
| PatrolThreads.StopCanBeLost | src/wheeltec_scada_bridge/wheeltec_scada_bridge/node.py:628-672 | from power-on: a completed stop is overwritten by a stale snapshot, and the mission is running again with no waypoints |
| PatrolThreads.OvertakenExactly | src/wheeltec_scada_bridge/wheeltec_scada_bridge/node.py:620-725 | a start that has set its status is overtaken by a tick, which publishes a goal before home, if and only if the robot stands within the new tolerance of the last goal |
| PatrolThreads.FirstStartIsSafe | src/wheeltec_scada_bridge/wheeltec_scada_bridge/node.py:620-725 | before anything has been published there is no last goal, so the first start after power-on is never overtaken |
| PatrolThreads.PatrolCompletes | src/wheeltec_scada_bridge/wheeltec_scada_bridge/node.py:576-725 | from power-on: a patrol over two waypoints publishes home, both, home, and completes |
| PatrolThreads.NextStartOvertaken | src/wheeltec_scada_bridge/wheeltec_scada_bridge/node.py:576-725 | from power-on: after a patrol completed at home the next start is overtaken; its first waypoint precedes its home, and it runs while the robot is sent home |
| PatrolRefinement.UninterruptedAdvance | src/wheeltec_scada_bridge/wheeltec_scada_bridge/node.py:649-707 | the lock sections of an advance that nothing interrupts give the state and the goal of the atomic advance, at the time the goal is recorded |
| PatrolRefinement.CommandRefines | src/wheeltec_scada_bridge/wheeltec_scada_bridge/node.py:608-637 | each section of a command keeps the correspondence with the atomic mission |
| PatrolRefinement.TimerRefines | src/wheeltec_scada_bridge/wheeltec_scada_bridge/node.py:649-725 | each section of a tick keeps the correspondence with the atomic mission |
| PatrolRefinement.PollRefines | src/wheeltec_scada_bridge/wheeltec_scada_bridge/node.py:709-725 | a tick that finds nothing to do may fall between two sections of a command |
| PatrolRefinement.SerialRefines | src/wheeltec_scada_bridge/wheeltec_scada_bridge/node.py:576-725 | every behaviour in which commands and acting ticks do not overlap is a run of atomic events; ticks that find nothing to do may fall inside a command |
| PatrolRefinement.SerialGoals | src/wheeltec_scada_bridge/wheeltec_scada_bridge/node.py:576-725 | such behaviours publish prefixes of the itineraries, and read completed exactly at the last arrival |
| SerialFrame.Push | src/turn_on_wheeltec_robot/src/wheeltec_robot.cpp:520-535 | on every byte the buffer write is in bounds and the counter returns below the frame size |
| SerialFrame.RunConcat | src/turn_on_wheeltec_robot/src/wheeltec_robot.cpp:498-625 | feeding two streams one after the other is feeding their concatenation |
| SerialFrame.PartialFrame | src/turn_on_wheeltec_robot/src/wheeltec_robot.cpp:520-536 | from counter 0 a partial frame fills the buffer in order and succeeds nowhere, whatever its payload |
| SerialFrame.WholeFrame | src/turn_on_wheeltec_robot/src/wheeltec_robot.cpp:498-625 | a frame succeeds on its last byte exactly when tail and check hold, and the counter is 0 again |
| SerialFrame.StreamFraming | src/turn_on_wheeltec_robot/src/wheeltec_robot.cpp:498-625 | a stream of frames separated by non-header bytes gives one success per good frame, at its last byte, with its own bytes |
| SerialFrame.XorUpdate | src/turn_on_wheeltec_robot/src/wheeltec_robot.cpp:333-367 | altering one byte always changes the check value |
| SerialFrame.AlteredFrameIsDamaged | src/turn_on_wheeltec_robot/src/wheeltec_robot.cpp:498-625 | altering one non-header byte of a good frame makes it fail the check |
| SerialFrame.AlteredByteLosesOneFrame | src/turn_on_wheeltec_robot/src/wheeltec_robot.cpp:498-625 | altering one non-header byte of a stream loses exactly that frame |
| SerialFrame.QuietBytes | src/turn_on_wheeltec_robot/src/wheeltec_robot.cpp:520-536 | bytes without the header leave a resting collector at rest |
| SerialFrame.StreamTaken | src/turn_on_wheeltec_robot/src/wheeltec_robot.cpp:498-625 | on a stream shared with other formats each own frame is taken over once, as long as the others hold no header byte of it |
| Chassis.WordRoundTrip | src/turn_on_wheeltec_robot/src/wheeltec_robot.cpp:32-37 | splitting a signed 16-bit value into bytes and joining them gives it back |
| Chassis.WordIsBigEndian | src/turn_on_wheeltec_robot/src/wheeltec_robot.cpp:32-38 | the high byte comes first |
| Chassis.MilliIsThousandths | src/turn_on_wheeltec_robot/src/wheeltec_robot.cpp:40-47 | whole part and remainder recombine to thousandths, also for negative values |
| Chassis.ImuInRange | src/turn_on_wheeltec_robot/include/turn_on_wheeltec_robot/wheeltec_robot.h:72-80 | scaled accelerations stay within 19.6 m/s^2 and scaled rates within 8.7308 rad/s |
| Chassis.VelocityRoundTrip | src/turn_on_wheeltec_robot/src/wheeltec_robot.cpp:40-94 | a velocity survives encoding and decoding to less than a thousandth, towards zero |
| Chassis.MixedStream | src/turn_on_wheeltec_robot/src/wheeltec_robot.cpp:498-625 | main frames without 0x7C, auto-charge frames without 0x7B and noise with neither: each frame is taken over once, at its last byte, by its own collector |
| Chassis.MainReadingsArrive | src/turn_on_wheeltec_robot/src/wheeltec_robot.cpp:565-624 | the readings of a main frame written in protocol order arrive field by field: velocities and voltage in thousandths, six raw words, and their scaled values |
| Chassis.ChargeReadingsArrive | src/turn_on_wheeltec_robot/src/wheeltec_robot.cpp:537-563 | the readings of an auto-charge frame arrive field by field |
| Chassis.MainFrameReceived | src/turn_on_wheeltec_robot/src/wheeltec_robot.cpp:498-625 | fed to a resting receiver such a main frame succeeds once, on its last byte, and its readings are what is held |
| Chassis.ChargeFrameReceived | src/turn_on_wheeltec_robot/src/wheeltec_robot.cpp:498-563 | the same for an auto-charge frame |
| Chassis.TurnOnRobot.constructor | src/turn_on_wheeltec_robot/src/wheeltec_robot.cpp:701-785 | both counters start at 0 |
| Chassis.TurnOnRobot.CheckSum | src/turn_on_wheeltec_robot/src/wheeltec_robot.cpp:333-367 | the XOR of the first bytes of a buffer |
| Chassis.TurnOnRobot.CountByte | src/turn_on_wheeltec_robot/src/wheeltec_robot.cpp:527-535 | the two counters advance independently on the same byte |
| Chassis.TurnOnRobot.TakeCharge | src/turn_on_wheeltec_robot/src/wheeltec_robot.cpp:537-563 | an auto-charge frame is taken over exactly when tail and check hold |
| Chassis.TurnOnRobot.TakeMain | src/turn_on_wheeltec_robot/src/wheeltec_robot.cpp:565-624 | a main frame is taken over, field by field and with the scaled inertial readings, exactly when tail and check hold |
| Chassis.TurnOnRobot.GetSensorDataNew | src/turn_on_wheeltec_robot/src/wheeltec_robot.cpp:498-625 | both collectors advance as the pure one does; success and new data exactly on a completed good frame |
| Chassis.TurnOnRobot.ReceiveAll | src/turn_on_wheeltec_robot/src/wheeltec_robot.cpp:498-625 | over a whole stream both collectors are the pure ones, the successes are those of the main one, and the data kept are of the last main and the last auto-charge frame taken over |
| Chassis.TurnOnRobot.ReceiveNext | src/turn_on_wheeltec_robot/src/wheeltec_robot.cpp:498-625 | one more byte of a stream, for both collectors and all data kept |
| Chassis.TurnOnRobot.CmdVelCallback | src/turn_on_wheeltec_robot/src/wheeltec_robot.cpp:55-94 | for every command a well-formed 11-byte frame is sent; each word decodes to the truncated thousandths whenever they fit a short |
| Coverage.InflatedRow | src/wheeltec_scada_bridge/wheeltec_scada_bridge/coverage_planner.py:169-183 | a cell of the dilated grid is free exactly when no occupied or unknown cell lies within the Chebyshev distance |
| Coverage.FindFreeSegments | src/wheeltec_scada_bridge/wheeltec_scada_bridge/coverage_planner.py:185-206 | the loop returns the free runs of the row |
| Coverage.FreeRunsExact | src/wheeltec_scada_bridge/wheeltec_scada_bridge/coverage_planner.py:185-206 | those are exactly the maximal free runs of at least three cells |
| Coverage.StripeCells | src/wheeltec_scada_bridge/wheeltec_scada_bridge/coverage_planner.py:60-62 | the stripe is at least one cell wide, so the sweep advances |
| Coverage.StripeInMetres | src/wheeltec_scada_bridge/wheeltec_scada_bridge/coverage_planner.py:60-62 | a stripe is no wider than the robot less the overlap unless it is one cell, and one more cell would be wider |
| Coverage.CentreIsMiddle | src/wheeltec_scada_bridge/wheeltec_scada_bridge/coverage_planner.py:78-91 | waypoints are half way between the edges of their cells |
| Coverage.RowLoop | src/wheeltec_scada_bridge/wheeltec_scada_bridge/coverage_planner.py:81-105 | two waypoints per run at the centres of its end cells, in driving order |
| Coverage.SweepRow | src/wheeltec_scada_bridge/wheeltec_scada_bridge/coverage_planner.py:72-108 | one stripe and whether it turns the direction |
| Coverage.SweepLoop | src/wheeltec_scada_bridge/wheeltec_scada_bridge/coverage_planner.py:68-111 | all stripes in order, the direction turning after each row that had a run |
| Coverage.GenerateBoustrophedon | src/wheeltec_scada_bridge/wheeltec_scada_bridge/coverage_planner.py:49-116 | the sweep, thinned |
| Coverage.OptimizeWaypoints | src/wheeltec_scada_bridge/wheeltec_scada_bridge/coverage_planner.py:208-235 | the loop computes the thinned list |
| Coverage.ThinnedKeepsShape | src/wheeltec_scada_bridge/wheeltec_scada_bridge/coverage_planner.py:208-235 | thinning invents no point, keeps both ends, and keeps every point where the path turns |
| Coverage.ValidateWaypoints | src/wheeltec_scada_bridge/wheeltec_scada_bridge/coverage_planner.py:237-275 | each verdict exactly when it is due; a rejected index is the first offender, and off the map or on an occupied cell as the verdict says |
| Coverage.SafeIsOnFreeCell | src/wheeltec_scada_bridge/wheeltec_scada_bridge/coverage_planner.py:261-273 | a waypoint at the centre of a free cell passes both checks of the validator |
| Coverage.SweepSafe | src/wheeltec_scada_bridge/wheeltec_scada_bridge/coverage_planner.py:68-111 | every raw waypoint is clear of obstacles |
| Coverage.BoustrophedonIsSafe | src/wheeltec_scada_bridge/wheeltec_scada_bridge/coverage_planner.py:49-116 | every waypoint is clear of occupied and unknown cells by more than inflation_cells and passes both checks |
| Coverage.SafeIsClearInMetres | src/wheeltec_scada_bridge/wheeltec_scada_bridge/coverage_planner.py:64-66 | every waypoint is farther along some axis than half the robot plus 0.3 m from the centre of any cell reported unknown or more than 50 percent occupied |
| Coverage.PlanAndValidate | src/wheeltec_scada_bridge/wheeltec_scada_bridge/coverage_planner.py:49-275 | the validator can only object to the number of waypoints, and all of them are clear of blocked cells in cells and in metres |
| Coverage.SweepCoversStripes | src/wheeltec_scada_bridge/wheeltec_scada_bridge/coverage_planner.py:68-111 | each usable free run of each stripe is driven end to end by two consecutive raw waypoints |
| CoverageShape.LevelThenAnywhere | src/wheeltec_scada_bridge/wheeltec_scada_bridge/coverage_planner.py:220-231 | after a level leg the middle point is kept exactly when leg length times climb exceeds 0.01 |
| CoverageShape.AnywhereThenLevel | src/wheeltec_scada_bridge/wheeltec_scada_bridge/coverage_planner.py:220-231 | before a level leg the middle point is kept exactly when climb times leg length exceeds 0.01 |
| CoverageShape.CornerIsKept | src/wheeltec_scada_bridge/wheeltec_scada_bridge/coverage_planner.py:208-235 | a right-angled corner whose legs have a product of lengths above 0.01 stays in the list |
| CoverageShape.StraightIsNoTurn | src/wheeltec_scada_bridge/wheeltec_scada_bridge/coverage_planner.py:220-231 | of three points on one line the middle one is not kept by its own test |
| CoverageShape.StraightPathThins | src/wheeltec_scada_bridge/wheeltec_scada_bridge/coverage_planner.py:208-235 | a path along one line is thinned to its two ends |
| CoverageShape.DrivingOrder | src/wheeltec_scada_bridge/wheeltec_scada_bridge/coverage_planner.py:81-105 | a run is driven level, with heading 0 to growing x or with heading pi to falling x |
| CoverageShape.SweepPairs | src/wheeltec_scada_bridge/wheeltec_scada_bridge/coverage_planner.py:68-111 | waypoints 2i and 2i + 1 are the ends of one free run of a stripe row, driven in the direction given by the parity of the used rows before it |
| CoverageShape.RowChangeTurns | src/wheeltec_scada_bridge/wheeltec_scada_bridge/coverage_planner.py:68-114 | where the sweep changes row both waypoints turn, once two cells times one stripe exceed 0.01 square metres |
| CoverageShape.PlanKeepsRowChanges | src/wheeltec_scada_bridge/wheeltec_scada_bridge/coverage_planner.py:49-116 | the returned plan still has both ends of every change of row, under that condition |
| CoverageShape.WithinRowNoTurn | src/wheeltec_scada_bridge/wheeltec_scada_bridge/coverage_planner.py:220-231 | nothing turns within one row |
| CoverageShape.FineMapLosesCorners | src/wheeltec_scada_bridge/wheeltec_scada_bridge/coverage_planner.py:49-116 | on a free map of two rows of three 5 cm cells the corners are dropped and the plan is one diagonal |
| Spiral.DriveEdge | src/wheeltec_scada_bridge/wheeltec_scada_bridge/coverage_planner.py:138-163 | one edge loop: the in-map cells of the edge in order |
| Spiral.GenerateSpiral | src/wheeltec_scada_bridge/wheeltec_scada_bridge/coverage_planner.py:118-167 | the waypoints are the stops of the rings 1 to max(w, h)/2 in order |
| Spiral.WalkTimes | src/wheeltec_scada_bridge/wheeltec_scada_bridge/coverage_planner.py:138-163 | an edge visits each of its in-map cells once and no other |
| Spiral.RingTimes | src/wheeltec_scada_bridge/wheeltec_scada_bridge/coverage_planner.py:136-165 | a ring visits its in-map cells once, its in-map corners twice, and no other cell |
| Spiral.SpiralVisits | src/wheeltec_scada_bridge/wheeltec_scada_bridge/coverage_planner.py:118-167 | every map cell but the centre is visited once, on the diagonals twice; the centre and cells off the map never |
| Spiral.SpiralOutward | src/wheeltec_scada_bridge/wheeltec_scada_bridge/coverage_planner.py:132-165 | Chebyshev distance from the centre never decreases along the route |
| Spiral.RingHeadings | src/wheeltec_scada_bridge/wheeltec_scada_bridge/coverage_planner.py:138-163 | each stop of a ring heads along its edge |
| Spiral.WalkLength | src/wheeltec_scada_bridge/wheeltec_scada_bridge/coverage_planner.py:138-163 | the number of in-map cells of an edge |
| Spiral.RingLength | src/wheeltec_scada_bridge/wheeltec_scada_bridge/coverage_planner.py:136-165 | the number of stops of a ring |
| Spiral.RingsLength | src/wheeltec_scada_bridge/wheeltec_scada_bridge/coverage_planner.py:132-165 | the number of stops of the first rings: the block they enclose without the centre, and its corners once more |
| Spiral.SpiralLength | src/wheeltec_scada_bridge/wheeltec_scada_bridge/coverage_planner.py:118-167 | the number of waypoints in closed form from width and height |
| Spiral.LargeMapsRejected | src/wheeltec_scada_bridge/wheeltec_scada_bridge/coverage_planner.py:118-253 | no map of more than 1001 cells can be accepted |
| Spiral.MapOf960CellsRejected | src/wheeltec_scada_bridge/wheeltec_scada_bridge/coverage_planner.py:118-253 | a map of 32 by 30 cells has 1017 stops, too many although it has fewer than 1000 cells |
| Spiral.SpiralFree | src/wheeltec_scada_bridge/wheeltec_scada_bridge/coverage_planner.py:118-167 | all stops are on free cells exactly when every cell but the centre is free |
| Spiral.PlanAndValidateSpiral | src/wheeltec_scada_bridge/wheeltec_scada_bridge/coverage_planner.py:118-275 | the spiral validates exactly when the closed-form count is between 2 and 1000 and every cell but the centre is free; too few and too many by the same count |

## Left out

- Machine integers: sizes, indices and sums are unbounded integers; wrap-around of unsigned differences and casts of out-of-range reals are not modelled. A cell value is an integer from 0 to 255.
- Chassis.TurnOnRobot.CmdVelCallback: the value of the cast outside the range of a short is undefined in the source, so it is a parameter here.
- Floating-point rounding: coordinates, costs by distance and times are real numbers. The one NaN that matters, the approach ratio 0/0 of a zero time horizon, is modelled as a comparison that fails.
- Distances: the distance cache and the patrol distance are kept squared, so no square root is taken; comparisons are the same.
- InflationSpec.ComputeCost: the exponential decay is a parameter, a function of distance, resolution and inscribed radius, assumed between 0 and 1 beyond that radius and not increasing with distance.
- Trigonometric functions of the motion simulation and the projection are parameters without assumed laws.
- DistanceRank.SortByNorm: an insertion sort stands for std::sort; the ranking does not depend on the order of equal distances.
- InflationTheorems.InflationExactForOneSeed: exact for one seed; for several seeds, where the brushfire is a heuristic, the bounds of InflationTheorems.InflationSound are what is promised.
- Inflation update bounds, dynamic parameters and the reset of the layer.
- Costmap.Costmap2D.RaytraceLine: the length of the line, which the source takes from hypot, is a parameter known by its square. The default maximum length stands for no maximum.
- Costmap2D copies, resizing, saving and construction from a message; map regions with bounds enforcement.
- updateWithOverwrite and updateWithTrueOverwrite: plain copies.
- Circle polygons, polygon publishing and parameter reading of the collision monitor.
- The old resynchronising receiver, recovery after a corrupted header byte, pose integration and range sensors of the chassis driver.
- Patrol payload coercions: a payload field is a number, absent, or bad; run identifiers, telemetry dictionaries and log messages are not kept.
- PatrolThreads.SharedInvariant: the pose of the robot and the clock are free readings of each step that looks at them; distances are compared squared.
- PatrolRefinement.SerialRefines: one direction only, from the threads to the atomic events; deadlines are stated for the atomic mission.
- The goal that nav_goal itself publishes goes to the same topic but is not part of the patrol's list.
- Coverage.SweepCoversStripes: covers the raw waypoints; the edges left after thinning are not claimed to be free, because the source does not check them.
- Coverage patterns other than the two, and the conversion of the map message to an array; a map whose data does not match its size is rejected there.
- ROS nodes, topics, services, parameters, transforms, sockets, locks as objects, logging and file handling.
- AMCL, the behaviour-tree engine, the smoothers and planners, voxel ray tracing, launch files, teleoperation and converters.
