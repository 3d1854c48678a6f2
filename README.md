# UAV coverage path planning — a Dafny model

The repository plans coverage routes for several UAVs (drones) over a
rectangular environment. The environment is a grid whose "cities" are the
cell centres. This project models the deterministic bookkeeping around the
floating-point geometry, and proves what it promises:

- **Grid environments** (`Grid`, `RootEnvironment`, `ToolsEnvironment`,
  `PartitionDraft`). There are three drafts of the `Environment` class:
  environment.py, tools/environment.py and partition.py. Each one fills its
  `cities` field once with the `width * height` cell centres. Each one
  classifies a point by the sign of its offset from the centre
  (`quadrant`) and turns that into an angle (`find_angle_from_center`).
  The drafts differ in their centre sentinel (`'center'` or `999`), in
  their label for the 270-degree axis, and in which axes get exact radians.
  Each draft is modelled as written.
- **Angular sector assignment** (`Sectors`, `MainRoutes`,
  `GuigaAlgorithms`). `get_uav_routes` splits the plane around the centre
  into k sectors by the boundaries `num * 2*pi / k` and `2*pi`, and puts each
  city into a sector dictionary.
  - main.py puts each city under the first boundary with `angle <= b != 0`.
    Its entry point then closes each sector into a tour through the centre.
  - tools/guiga_algorithms.py first sorts the cities by angle. It uses a
    strict `<`, caps each sector at `round(n / k)`, pushes the overflow into
    the next sector, and closes every route.
- **Ant Colony System TSP heuristic** (`Ants`, Ants_python.py). It covers:
  - tour cost with the wrap-around edge;
  - the Fisher–Yates permutation;
  - the pheromone matrix, whose rows are one shared row;
  - candidate lists, and greedy and roulette-wheel selection;
  - tour construction, and the local and global pheromone updates;
  - the best-so-far search.
- **Algorithm 1 of Seyedi, Yazicioglu and Aksaray** (`PaperAlgorithms`,
  `TestingGrounds`). This is the tiling of an `x * y` environment by
  `a1 * a2` rectangles, in tools/paper_algorithms.py and in its untagged
  twin testing_grounds.py. The same module has the UAV energy test and the
  vehicle speed rule.
- **Voxel expansion** (`Voxels`, tools/environment.py). `delete_empty_keys`
  deletes the keys of a voxel dictionary in place. `create_voxels` expands
  the known corners into a dense z/y/x grid of typed voxels.

How the model is built:

- Coordinates and angles are `real`s.
- `angle_between` (arccos), `math.hypot`, `euc_2d`, `**`, the rotation
  matrices and the external TSP solver are function parameters.
- The random draws are parameters with range preconditions.
- Python's `f'{i}'` dictionary keys are the naturals `i`.

## Model

| member | source | states |
|---|---|---|
| Grid.CityAt | tools/environment.py:40-51 | the city at index `w * length + h` is the cell centre `[w + 0.5, h + 0.5]` (w-major order) |
| Grid.CityShape | tools/environment.py:42-51 | every city is the centre of some cell `0 <= w < width`, `0 <= h < length` |
| Grid.CenterIsCity | tools/guiga_algorithms.py:44-50 | the environment's centre is one of the cities exactly when both sides are odd (so `optimal_split` counts it only then) |
| Grid.OddCenterIsCity | tools/environment.py:28 | odd sides put the centre `[width/2, length/2]` on a city |
| Grid.CityCenterIsOdd | tools/environment.py:28 | a centre that is a city forces both sides odd |
| Grid.HalfIsCellCoordinate | tools/environment.py:28 | `n / 2 == w + 0.5` iff `n == 2w + 1` |
| RootEnvironment.Environment.constructor | environment.py:9-22 | `width`, `height` are stored and the property access in `__init__` leaves `cities` equal to the full grid |
| RootEnvironment.Environment.GetCities | environment.py:25-42 | fills `cities` with the grid only when it is empty, otherwise leaves it unchanged; returns the field |
| RootEnvironment.Environment.Quadrant | environment.py:65-108 | `'c'` iff the point is the centre; ints 0/90/180 on those axes; the string `'270'` below; ints 1-4 in the open quadrants; each answer iff its sign condition, and always one of the nine |
| RootEnvironment.Environment.FindAngleFromCenter | environment.py:110-141 | `Center` iff the point is the centre; exact 0 and pi on the horizontal axis, pi/2 above; otherwise `angle_between`, reflected to 2*pi minus it strictly below the centre (270 axis included) |
| ToolsEnvironment.Environment.constructor | tools/environment.py:18-33 | stores `width`, `length` and fills `cities` with the grid |
| ToolsEnvironment.Environment.GetCities | tools/environment.py:36-53 | fills `cities` only when empty, so repeated access never duplicates cities |
| ToolsEnvironment.Environment.Quadrant | tools/environment.py:76-119 | `'c'` iff point == centre; ints 0/90/180/270 on the axes; ints 1-4 in the quadrants; exclusive and exhaustive |
| ToolsEnvironment.Environment.FindAngleFromCenter | tools/environment.py:121-152 | 999 for the centre; exact radians 0, pi, pi/2, 3pi/2 on the four axes (so the `'270'` test of line 148 is dead); off the axes `angle_between`, reflected below the centre |
| PartitionDraft.Environment.constructor | partition.py:22-35 | stores `width`, `height` and fills `cities` with the grid |
| PartitionDraft.Environment.GetCities | partition.py:38-53 | fills `cities` only when empty and returns it |
| PartitionDraft.Quadrant | partition.py:236-274 | `'c'` for the centre; strings `'0'`/`'90'`/`'180'`/`'270'` on the axes; ints 1-4 in the quadrants; exclusive and exhaustive |
| PartitionDraft.FindAngleFromCenter | partition.py:296-315 | `'center'` iff the point is a tuple equal to the centre, so never for a list city such as those `get_cities` builds (partition.py:51), even one at the centre; otherwise `angle_between`, reflected to 2*pi minus it exactly below the centre |
| Sectors.Boundaries | main.py:25-47 | k + 1 boundaries |
| Sectors.BoundariesShape | main.py:25-47 | the boundaries start at 0 (k >= 1), end at 2*pi and strictly increase |
| Sectors.BuildBoundaries | main.py:25-47 | the loop's `angles` list is `Boundaries(k)` and it yields exactly k drawing points, the i-th the boundary point of angle i |
| Sectors.FirstMatch | main.py:57-69 | the index the `enumerate(angles)` loop breaks at is a matching boundary with no match before it; `None` only when no boundary matches |
| Sectors.FirstMatchFrom | tools/guiga_algorithms.py:62-83 | the first matching boundary at or after `from`, with no match skipped |
| Sectors.FirstMatchOnBoundaries | tools/guiga_algorithms.py:62-65 | on k >= 1 sectors a boundary matches iff the angle is below 2*pi (strict) or at most 2*pi (non-strict), and it is one of 1..k: boundary 0 never matches |
| Sectors.Members | main.py:60-67 | the cities listed in sector s are exactly those whose destination is s, in ascending (input) order |
| Sectors.AssignedOnce | main.py:57-69 | a city is in sector s iff its destination is s, and then exactly once |
| Sectors.OnceInAscending | main.py:57-69 | a value of a strictly ascending index list occurs once |
| Sectors.Group | main.py:63-67 | the dictionary's keys are exactly the sectors that received a city |
| Sectors.UsedIffMembers | main.py:63-64 | a key exists iff its sector lists some city |
| Sectors.UnusedIsEmpty | main.py:63-64 | a sector without a key lists no city |
| Sectors.GroupSnoc | main.py:62-67 | placing one more city appends it to its sector, creating the key if needed, and changes nothing else |
| Sectors.SectorSizesAdd | main.py:63-67 | one append adds one to the total size of the counted sectors |
| Sectors.Conservation | main.py:50-69 | when every destination is below n, the sector sizes add up to the number of cities placed |
| Sectors.Tour | main.py:94-101 | a closed route has length n + 2, ends where it starts and visits the centre and the sector's cities exactly once before closing |
| MainRoutes.GetUavRoutes | main.py:12-71 | k drawing points, and a dictionary equal to `Group` of the cities by their first `<=` boundary: each sector is the input-order subsequence of its cities |
| MainRoutes.PlaceCity | main.py:52-69 | one pass of the city loop: the destination is the first `<=` match (none for the centre) and the dictionary gains the city there |
| MainRoutes.SectorsPartitionCities | main.py:50-69 | keys are among 1..k, and a city is placed iff it is not the centre (angles at most 2*pi) |
| MainRoutes.SectorSizesAddUp | main.py:50-69 | the sizes of sectors 1..k add up to the number of cities placed |
| MainRoutes.NoUavsUseKeyZero | main.py:47-60 | with no UAVs the only boundary is 2*pi, and every non-centre city goes to key 0 |
| MainRoutes.CloseRoutes | main.py:90-101 | the stored lists get the centre at index 0; each drawn path is the solver's order closed by its own first element, over the same keys |
| GuigaAlgorithms.PyRoundDiv | tools/guiga_algorithms.py:46 | `round(n / k)`: the nearest integer, ties to the even one |
| GuigaAlgorithms.PyRoundDivUnique | tools/guiga_algorithms.py:46 | any integer with the round-half-even property is `PyRoundDiv` |
| GuigaAlgorithms.Insert | tools/guiga_algorithms.py:52 | insertion keeps the triples and adds exactly the new element to the multiset |
| GuigaAlgorithms.InsertKeepsSorted | tools/guiga_algorithms.py:52 | inserting into an angle-sorted list keeps it sorted |
| GuigaAlgorithms.SortByAngle | tools/guiga_algorithms.py:52 | `sorted(..., key=e[2])` is ascending in angle and a permutation of its input |
| GuigaAlgorithms.SortIsStable | tools/guiga_algorithms.py:52 | the cities of equal angle keep their relative order (stability) |
| GuigaAlgorithms.InsertWithAngle | tools/guiga_algorithms.py:52 | insertion adds the new city in front of those of its angle |
| GuigaAlgorithms.Annotate | tools/guiga_algorithms.py:49-50 | each city becomes a triple whose first two fields are its coordinates |
| GuigaAlgorithms.Coords | tools/guiga_algorithms.py:69-81 | the stored `city[:2]` entries are pairs |
| GuigaAlgorithms.BalancedDestPrefix | tools/guiga_algorithms.py:55-83 | a city's sector depends only on the cities before it |
| GuigaAlgorithms.BalancedDestAt | tools/guiga_algorithms.py:55-83 | the j-th city's sector is the balanced placement given the destinations of the cities before it |
| GuigaAlgorithms.PlaceOnBoundaries | tools/guiga_algorithms.py:60-83 | a city is placed iff its angle is below 2*pi (never the 999 centre); it goes to its first matching sector i, or to i + 1 exactly when i < k and i already holds `optimal_split` (and at least one) cities; keys stay among 1..k |
| GuigaAlgorithms.BalancedKeys | tools/guiga_algorithms.py:62-81 | every key is one of 1..k, and a city is placed iff its angle is below 2*pi |
| GuigaAlgorithms.PlacedCountBalanced | tools/guiga_algorithms.py:55-83 | the number of placed cities is the number of angles below 2*pi |
| GuigaAlgorithms.BalancedConservation | tools/guiga_algorithms.py:55-83 | the sector sizes add up to the number of cities with angle in [0, 2*pi) |
| GuigaAlgorithms.SectorInAngleOrder | tools/guiga_algorithms.py:52-81 | within every sector the entries appear in ascending angle order |
| GuigaAlgorithms.PlaceBalanced | tools/guiga_algorithms.py:57-83 | one pass of the city loop places the city where the balanced rule says and the dictionary gains it there |
| GuigaAlgorithms.AnnotateCities | tools/guiga_algorithms.py:49-50 | the loop appends each city's angle to it in place |
| GuigaAlgorithms.AssignCities | tools/guiga_algorithms.py:55-83 | the dictionary equals `Group` of the coordinates by their balanced destinations |
| GuigaAlgorithms.CloseSectors | tools/guiga_algorithms.py:86-89 | same keys; each route is the centre-led solver order closed by its first element |
| GuigaAlgorithms.GetUavRoutes | tools/guiga_algorithms.py:9-91 | k drawing points; `environment.cities` becomes the stable angle sort of the annotated cities; the routes are the closed tours of the balanced sectors with `optimal_split = round(n / k)` |
| Ants.Cost | Ants_python.py:8-13 | the accumulated distance is the tour cost: consecutive pairs plus the wrap pair (last, first) |
| Ants.Rotate | Ants_python.py:8-13 | rotation moves the first city to the end |
| Ants.RotatedPath | Ants_python.py:8-13 | the path cost of a rotated tour plus the first edge is the original path cost |
| Ants.CostRotationInvariant | Ants_python.py:8-13 | a tour's cost does not depend on where it starts |
| Ants.CostPositive | Ants_python.py:8-13 | a permutation of at least two distinct cities has positive cost |
| Ants.Range | Ants_python.py:16 | `list(range(n))` |
| Ants.Shuffled | Ants_python.py:15-20 | the shuffle has n entries |
| Ants.ShuffledStep | Ants_python.py:17-19 | step i swaps positions i and `draw + i` |
| Ants.SwapKeepsPermutation | Ants_python.py:19 | a swap keeps a permutation a permutation |
| Ants.ShuffledIsPermutation | Ants_python.py:15-20 | every prefix of the Fisher–Yates loop leaves a permutation of 0..n-1 |
| Ants.SwapInPlace | Ants_python.py:19 | the tuple assignment swaps two array cells |
| Ants.ShuffleInPlace | Ants_python.py:17-19 | the in-place loop computes the specified shuffle |
| Ants.RandomPermutation | Ants_python.py:15-20 | the result is a permutation of 0..n-1 |
| Ants.InitialisePheromoneMatrix | Ants_python.py:22-23 | n rows that are one shared fresh array, every entry `init_pher` |
| Ants.DepositWrites | Ants_python.py:72-75 | one edge update writes the convex combination into [a][b] and [b][a] only |
| Ants.LocalUpdatePheromone | Ants_python.py:70-76 | every row (the shared one) becomes the deposits toward `init_phero` along all tour edges, wrap edge included |
| Ants.GlobalUpdatePheromone | Ants_python.py:62-68 | every row becomes the deposits toward `1 / cost` along the best tour |
| Ants.DepositsOffTour | Ants_python.py:62-76 | columns of cities off the tour are unchanged |
| Ants.DepositsStayWithin | Ants_python.py:62-76 | with the rate in [0, 1], values stay within any interval holding the old values and the target |
| Ants.Candidates | Ants_python.py:27-28 | candidates are cities below n not excluded |
| Ants.CandidatesComplete | Ants_python.py:27-28 | every non-excluded city is a candidate, in ascending index order |
| Ants.CandidatesCount | Ants_python.py:27-28 | with distinct excluded cities there are `n - |exclude|` candidates |
| Ants.MakeChoice | Ants_python.py:29-33 | the choice records its city and distance |
| Ants.ChoicesUpTo | Ants_python.py:25-35 | one choice per candidate, in candidate order |
| Ants.CalculateChoices | Ants_python.py:25-35 | the loop builds exactly the choice list over the unvisited cities |
| Ants.FirstMaxIndex | Ants_python.py:48-49 | an index of maximal probability with every earlier probability strictly smaller (the first maximum) |
| Ants.GreedySelect | Ants_python.py:48-49 | returns the city of the first choice of maximal probability: every choice before it is strictly less probable, as `max(key=)` keeps the first maximum |
| Ants.Crossing | Ants_python.py:42-46 | the roulette stops at or after its start, within the list |
| Ants.RouletteIndex | Ants_python.py:37-46 | `prob_select` picks a position of `choices` |
| Ants.ProbSelect | Ants_python.py:37-46 | returns the city at the uniform draw when the total is 0, else at the roulette crossing |
| Ants.SpentIsShare | Ants_python.py:43 | the subtracted amount is the prefix total over the total |
| Ants.CrossingBefore | Ants_python.py:42-45 | when the full share reaches v the loop returns at a position where v has dropped to 0 or below |
| Ants.CrossingIsFirst | Ants_python.py:42-45 | no earlier position had v at 0 or below |
| Ants.RouletteStopsInLoop | Ants_python.py:42-46 | for a draw at most 1 the loop returns at the first crossing, so the `choices[-1]` fallback is never needed in exact arithmetic |
| Ants.SelectNext | Ants_python.py:57-58 | greedy choice when the draw is at most `c_greed`, otherwise the roulette choice |
| Ants.AppendFresh | Ants_python.py:59 | appending an unvisited city keeps the tour valid and duplicate-free |
| Ants.NextCity | Ants_python.py:55-58 | the city appended to an unfinished tour is one not yet visited: the greedy or roulette pick among the choices for the unvisited cities, seen from the last city over the pheromone row |
| Ants.Construct | Ants_python.py:52-60 | appending `NextCity` until every city is visited extends the partial tour to a permutation of all cities |
| Ants.ConstructSteps | Ants_python.py:55-59 | every position s after the partial tour holds `NextCity` of the first s cities of the tour |
| Ants.StepwiseConst | Ants_python.py:52-60 | the while loop returns exactly `Construct` from the drawn start over the shared pheromone row, so a permutation starting at the drawn city |
| Ants.BestOfProperties | Ants_python.py:89-90 | the best is no dearer than the start and every tour, and is either the start or a tour strictly cheaper than the start and than every earlier tour (a tie keeps the earlier) |
| Ants.BestOfAppend | Ants_python.py:83-92 | the best after two rounds of tours is the best of the second round started from the first round's best |
| Ants.AntToursSnoc | Ants_python.py:85-91 | an ant built over the row the earlier ants' local updates left extends the list of ant tours |
| Ants.AntToursArePermutations | Ants_python.py:85-88 | every ant tour is a permutation starting at its drawn city, with its true cost |
| Ants.ConstructTours | Ants_python.py:85-91 | every ant's tour is the one `Construct` builds from its draws over the pheromone row the earlier ants' local updates left, with its true cost, so a permutation starting at its drawn city; `best` is `BestOf` the incoming best and those tours; the shared pheromone row ends as the local updates of those tours in turn |
| Ants.Search | Ants_python.py:78-94 | every ant tour tried is a permutation with its true cost; the result is `BestOf` the initial random tour and those tours in order, a permutation with its true cost no dearer than any of them |
| PaperAlgorithms.CeilDiv | tools/paper_algorithms.py:23 | `math.ceil(x / a)`: `(c - 1) * a < x <= c * a` |
| PaperAlgorithms.CeilDivUnique | tools/paper_algorithms.py:23 | the ceiling is the only integer with those bounds |
| PaperAlgorithms.ColumnCellsMembers | tools/paper_algorithms.py:24-25 | column k1 holds exactly the cells with `1 <= k2 < n` |
| PaperAlgorithms.InteriorCellsMembers | tools/paper_algorithms.py:23-25 | the nested loops list exactly the cells with `1 <= k1 < n1`, `1 <= k2 < n2` |
| PaperAlgorithms.RightColumnMembers | tools/paper_algorithms.py:27-28 | the right column holds exactly its cells for `1 <= k < n` |
| PaperAlgorithms.TopRowMembers | tools/paper_algorithms.py:30-31 | the top row holds exactly its cells for `1 <= k < n` |
| PaperAlgorithms.InteriorCount | tools/paper_algorithms.py:23-25 | the interior has `(n1 - 1) * (n2 - 1)` rectangles |
| PaperAlgorithms.TilingCount | tools/paper_algorithms.py:23-33 | there are exactly `ceil(x/a1) * ceil(y/a2)` rectangles |
| PaperAlgorithms.TilingMembers | tools/paper_algorithms.py:23-33 | a rectangle is listed iff it is an interior cell, a right-column cell, a top-row cell or the corner |
| PaperAlgorithms.CellSize | tools/paper_algorithms.py:25 | an interior cell is a1 wide and a2 high |
| PaperAlgorithms.TilingSizes | tools/paper_algorithms.py:25-33 | every rectangle spans exactly a1 in x and a2 in y |
| PaperAlgorithms.TilingInside | tools/paper_algorithms.py:23-33 | with `1 <= a1 <= x`, `1 <= a2 <= y` every rectangle lies in `[0, x] * [0, y]` |
| PaperAlgorithms.TilingCovers | tools/paper_algorithms.py:23-33 | every unit square of `[0, x] * [0, y]` lies in some rectangle (no gaps) |
| PaperAlgorithms.InteriorDisjoint | tools/paper_algorithms.py:23-25 | interior rectangles are pairwise disjoint |
| PaperAlgorithms.TagAllAt | tools/paper_algorithms.py:25-31 | each rectangle of a block carries its block's tag and weight |
| PaperAlgorithms.Untag | testing_grounds.py:18-29 | dropping the trailing tag fields keeps each rectangle in place |
| PaperAlgorithms.TaggedTilingShape | tools/paper_algorithms.py:23-33 | the output is the interior (k1 outer, k2 inner) tagged 9/0.8, the right column 6/1, the top row 3/0.8, then the corner 0/1 |
| PaperAlgorithms.UntagTaggedTiling | tools/paper_algorithms.py:23-33 | without its tags the paper output is the untagged tiling |
| PaperAlgorithms.Partitioning | tools/paper_algorithms.py:12-35 | the four loops build exactly the tagged tiling |
| PaperAlgorithms.AppendColumn | tools/paper_algorithms.py:24-25 | the inner loop appends column k1 tagged 9/0.8 |
| PaperAlgorithms.AppendRightColumn | tools/paper_algorithms.py:27-28 | the second loop appends the right column tagged 6/1 |
| PaperAlgorithms.AppendTopRow | tools/paper_algorithms.py:30-31 | the third loop appends the top row tagged 3/0.8 |
| PaperAlgorithms.UavCanCoverBudget | tools/paper_algorithms.py:68-76 | for a positive top speed the test holds iff `path_length * B_min <= e * uA_max` |
| PaperAlgorithms.UavCanCoverMonotone | tools/paper_algorithms.py:68-76 | more energy or a lower depletion rate never turns a coverable path uncoverable |
| PaperAlgorithms.VehicleVelocityCases | tools/paper_algorithms.py:37-65 | speed is `c * hypot(dx, dy)` with c the UAV top speed for a flying UAV, else the ground speed when moving, else 0; the defaults give the UAV's |
| PaperAlgorithms.VehicleVelocityProperties | tools/paper_algorithms.py:48-65 | non-negative, and the same in both directions, given non-negative speeds and a symmetric distance |
| TestingGrounds.Partitioning | testing_grounds.py:3-31 | the loops build exactly the untagged tiling (hence its count, sizes, bounds and coverage, and the paper output without tags) and the counter ends equal to the list length |
| TestingGrounds.AppendColumn | testing_grounds.py:16-18 | the inner loop appends column k1 and counts each rectangle |
| TestingGrounds.ExampleCall | testing_grounds.py:34 | `partitioning(3, 3, 10, 11)` lists 16 rectangles, the last `[[7, 10], [8, 11]]` |
| Voxels.VoxelDict.constructor | tools/environment.py:163 | a voxel dictionary with the given keys and lists |
| Voxels.Without | tools/environment.py:196-197 | a key survives iff it is not deleted |
| Voxels.NonEmpty | tools/environment.py:189-197 | a key survives iff its list is not empty |
| Voxels.WithoutEmpties | tools/environment.py:189-197 | deleting the collected empty keys leaves exactly the non-empty ones |
| Voxels.WithoutDistinct | tools/environment.py:196-197 | deletion keeps the keys distinct |
| Voxels.EmptyKeys | tools/environment.py:191-194 | the first loop collects exactly the keys with empty lists |
| Voxels.DeleteKeys | tools/environment.py:196-197 | the second loop removes exactly the collected keys from the key order and the map |
| Voxels.DeleteEmptyKeys | tools/environment.py:189-197 | exactly the keys with empty values are removed, the others keep their values and order |
| Voxels.CornersSnoc | tools/environment.py:172-175 | a further key appends its corners |
| Voxels.TypesSnoc | tools/environment.py:172-175 | a further key appends its name once per corner |
| Voxels.NonEmptySameCorners | tools/environment.py:165-175 | deleting the empty keys changes neither the flattened corners nor their types |
| Voxels.FirstIndex | tools/environment.py:183 | `list.index`: the first position holding the point |
| Voxels.TypeOfAppend | tools/environment.py:182-185 | a lookup in concatenated lists finds the first part's match first |
| Voxels.TypeIsFirstKey | tools/environment.py:172-185 | the looked-up type is the first key (in dictionary order) whose list holds the corner, else `'free space'` |
| Voxels.Row | tools/environment.py:179-185 | a row has `x_max + 1` voxels |
| Voxels.AppendRow | tools/environment.py:179-185 | the x loop appends one row of voxels |
| Voxels.AppendLayer | tools/environment.py:178-185 | the y loop appends one layer |
| Voxels.Expand | tools/environment.py:177-185 | the triple loop builds exactly the z/y/x grid |
| Voxels.CollectCorners | tools/environment.py:172-175 | the flattening loops produce the corners and their types in dictionary order |
| Voxels.CreateVoxels | tools/environment.py:162-187 | the dictionary loses exactly its empty keys, and the result is the grid over the original corners and types |
| Voxels.LayerCount | tools/environment.py:178-179 | a layer has `(y_max + 1) * (x_max + 1)` voxels |
| Voxels.GridCount | tools/environment.py:177-185 | the result has `(z_max + 1)(y_max + 1)(x_max + 1)` voxels |
| Voxels.RowIndex | tools/environment.py:179-185 | the x-th voxel of a row is the voxel at x |
| Voxels.LayerIndex | tools/environment.py:178-185 | the voxel at `y * nx + x` of a layer is the voxel at (x, y) |
| Voxels.GridIndex | tools/environment.py:177-185 | the voxel at `(z * ny + y) * nx + x` is the voxel at (x, y, z): z/y/x order |
| Voxels.ExpandedVoxel | tools/environment.py:162-187 | that voxel's corner is (x, y, z) and its type is the first key holding the corner, else `'free space'` |

## Left out

- Floating point: coordinates, angles, pheromone, energy and speed are exact reals. `np.radians`, `/` and `round` are exact rational operations, so rounding error is not modelled.
- `angle_between`, `math.hypot`, `euc_2d`, the `**` power and the rotation matrices are function parameters. Only the laws stated in each `requires` are assumed of them.
- The external TSP solvers (`exact_tsp`, `ant_tsp`, `genetic_tsp`, the `tsp` package) are a parameter assumed to return a permutation of its input. tsp_algorithms/tsp_algorithms.py is not part of this model.
- `random.randint` and `random.random` are injected draws with the range `randint` guarantees. No distribution is modelled.
- Drawing: `Draw` (draw.py, tools/draw.py, partition.py:56-175), `Voxel.draw_voxels` and `Voxel.explode` render with matplotlib only.
- `partition_feasibility_check` (tools/paper_algorithms.py:84-114) cannot run, because `range` gets a float and no arguments. The commented-out trajectory generator (tools/paper_algorithms.py:121-163) is not code.
- partition.py's `get_uav_routes` is a stub whose city loop is `pass`. `get_route_data` only prints. The `__main__` blocks time, print and plot; only main.py's route insert/close steps are modelled (`MainRoutes.CloseRoutes`).
- Dictionary keys `f'{i}'` are the naturals `i`. The sector dictionaries are `map`s, so their insertion order (which only affects iteration) is not modelled.
- The voxel dictionary keeps its key order in `keys`, because `create_voxels` flattens it in that order.
- Voxel corners are integer triples, voxel types are strings, `specs` is three integers, and `Voxel.identity` is left out: `create_voxels` never sets it.
- Root environment.py returns the string `'center'` for the centre. tools/guiga_algorithms.py:52 sorts with the tools draft, whose sentinel is 999, so the mixed-type sort that would fail with `'center'` is not modelled.
- GuigaAlgorithms.GetUavRoutes: the tools `Environment` has no `height`, and tools/guiga_algorithms.py:38 reads it only to place the drawing points. Those points are the parameter `boundaryPoint`.
- GuigaAlgorithms.GetUavRoutes requires at least one UAV: with none, `round(n / 0)` at line 46 divides by zero.
- PaperAlgorithms.Partitioning and TestingGrounds.Partitioning require `a1, a2 >= 1`. Sizes are integers, and `x / a1` fails for a zero size.
- PaperAlgorithms.TilingCount is stated for `x, y >= 1`. For a non-positive size the corner is still appended, so the count is not the product of the ceilings.
- UavCanCover requires `uA_max != 0`, since Python raises a division error there. Its properties are stated for `uA_max > 0`.
- VehicleVelocityCases: the standing case returns the int `0` in Python and `0.0` here.
- Ants.CalculateChoices requires `euc_2d != 0` between the last city and each candidate, and Ants.Search requires at least two cities that are pairwise apart. Otherwise `1.0 / distance` or `1.0 / (n * cost)` divides by zero.
- Ants.Search and Ants.ConstructTours return the tours the ants built as a ghost list; Python keeps them nowhere (the `solutions` list of Ants_python.py:84 stays empty).
- Ants.Search: the pheromone matrix is local to `search`, so its state across iterations is stated per round (ConstructTours, GlobalUpdatePheromone) but not for the whole search.
- partition.py's `find_angle_from_center` has no caller in that file; PartitionDraft.FindAngleFromCenter models it for both a tuple point and a list city, as `get_cities` produces.
