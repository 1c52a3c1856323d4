# Site percolation on a square lattice

This project models the lattice core of a site-percolation simulator and
proves properties of that model. The simulator fills an L x L lattice of
`int`s with occupied sites (1) and vacant sites (0). It then asks two
questions.

- **The burning method.** How long is the shortest path of occupied sites
  from the top row to the bottom row? The method is a breadth-first search
  that overwrites every reached site with its distance + 1. It reports the
  number of sites of the shortest spanning path, or 0 when the lattice does
  not percolate.
- **The Hoshen–Kopelman labelling.** Which clusters does the lattice hold,
  how large are they, and what is their size distribution? A raster scan
  hands out provisional labels. A union–find forest, kept in one `int` array
  (`updateCluster`, `unionFind`, `find`), records which labels meet. A second
  scan renames every class to a sequential id 1 .. k.

The repository holds two versions of the lattice model:

- the later one (`percolation-model/…/PercolationModel.java`);
- an earlier one (`src/…/PercolationModel.java`).

Both are modelled. The later version's burning method is modelled and proved
correct:

- its result is 0 exactly when no spanning path exists;
- otherwise it is the length of a shortest one.

The earlier version's burning method is modelled as written. A concrete
lattice shows that it reports a path that is too short (see "## Findings").

Module layout:

| file | module | models |
|---|---|---|
| lattice.dfy | `Lattice` | sites, the lattice as `seq<seq<int>>`, neighbours, paths, connectivity |
| lattice_arrays.dfy | `LatticeArrays` | `getEmptyModel`, `arrayCopy`, `generateLatticeModel` on `array2<int>` |
| burning.dfy | `Burning` | one neighbour branch, seeding of row 0, the last-row scan, spanning paths |
| burning_iterations.dfy | `BurningIterations` | the later loop as a function of its state, its breadth-first invariant |
| shortest_path.dfy | `ShortestPath` | the later `shortestPathInModel`, in place |
| early_shortest_path.dfy | `EarlyShortestPath` | the earlier `shortestPathInModel`, its termination, a counterexample |
| label_forest.dfy | `Labels` | the label array as a class: `updateCluster`, `find`, `unionFind` |
| starts.dfy | `StartSites` | how many labels the first pass hands out |
| capacity.dfy | `LabelCapacity` | the size of the label arrays |
| hoshen_kopelman.dfy | `HoshenKopelman` | both passes of `maxClusterFinding` / `clusterFinding`, in place |
| finite_sums.dfy | `FiniteSums` | sums over finite sets, used for the distribution totals |
| cluster_statistics.dfy | `ClusterStatistics` | the occurrence count, the grouping by size, the largest cluster |
| percolation_model.dfy | `PercolationModel` | the later public operations built on the labelling |
| early_percolation_model.dfy | `EarlyPercolationModel` | the earlier public operations built on the labelling |
| main_example.dfy | `MainExample` | the lattice that `Main` labels, with its distribution |

The Java arrays are `array2<int>` and the methods change them in place. Each
method's `ensures` ties the final array, `Snapshot(model)`, to a function of
the initial one. Lemmas about those functions carry the algorithmic
properties.

The doc comment of the burning method says it returns -1 when no path
exists. Both versions return 0, and the model follows the code.

## Model

In the source column:

- `percolation-model/src/main/java/pwr/edu/percolation/PercolationModel.java` is the later version;
- `src/main/java/pwr/edu/percolation/PercolationModel.java` is the earlier one.

| member | source | states |
|---|---|---|
| LatticeArrays.GetEmptyModel | percolation-model/src/main/java/pwr/edu/percolation/PercolationModel.java:29-33 | a fresh L x L lattice whose every site is vacant (0) |
| LatticeArrays.ArrayCopy | percolation-model/src/main/java/pwr/edu/percolation/PercolationModel.java:35-41 | a fresh array, distinct from the source, of the same size and holding the same value at every site, so later writes to the copy do not reach the source |
| LatticeArrays.GenerateLatticeModel | percolation-model/src/main/java/pwr/edu/percolation/PercolationModel.java:20-27 | a fresh L x L 0/1 lattice whose site (i, j) is occupied exactly when draw (i, j) succeeded |
| Burning.ExpandInPlace | percolation-model/src/main/java/pwr/edu/percolation/PercolationModel.java:63-81 | one neighbour branch in place: a neighbour on the lattice that still holds 1 is relabelled with its value plus the polled site's value, and/or enqueued; nothing else changes |
| Burning.ExpandAllAt | percolation-model/src/main/java/pwr/edu/percolation/PercolationModel.java:62-81 | after the branches of one iteration a site holds the polled site's value + 1 exactly when a relabelling branch targets it while it holds 1, and its old value otherwise |
| Burning.ExpandAllQueue | percolation-model/src/main/java/pwr/edu/percolation/PercolationModel.java:62-81 | the branches append exactly the enqueuing targets that still hold 1, in branch order |
| Burning.ExpandAllBudget | percolation-model/src/main/java/pwr/edu/percolation/PercolationModel.java:62-81 | when every branch relabels, each appended site is a 1 that is burnt, so the 1s plus the queue length never grow |
| Burning.SeedRow | percolation-model/src/main/java/pwr/edu/percolation/PercolationModel.java:52-57 | the seeding loop leaves the lattice and queue given by the seeding functions |
| Burning.SeedGridAt | percolation-model/src/main/java/pwr/edu/percolation/PercolationModel.java:52-57 | seeding turns exactly the 1s of row 0 into 2 and leaves every other site unchanged |
| Burning.SeedQueueHas | percolation-model/src/main/java/pwr/edu/percolation/PercolationModel.java:52-57 | the seeded queue holds exactly the row-0 sites that held 1, in column order |
| Burning.OnesPut | percolation-model/src/main/java/pwr/edu/percolation/PercolationModel.java:64 | burning one site that holds 1 lowers the number of 1s by exactly one |
| Burning.SeedBudget | percolation-model/src/main/java/pwr/edu/percolation/PercolationModel.java:52-57 | seeding keeps the 1s plus the queue length equal to the 1s of the input |
| Burning.ScanLastRow | percolation-model/src/main/java/pwr/edu/percolation/PercolationModel.java:84-87 | the result is 0 exactly when no last-row site holds a value between 2 and `Integer.MAX_VALUE` - 1, otherwise the least such value minus 1 |
| Burning.ShortestUnique | percolation-model/src/main/java/pwr/edu/percolation/PercolationModel.java:43-48 | the length of a shortest spanning path is unique |
| Burning.SpanningLength | percolation-model/src/main/java/pwr/edu/percolation/PercolationModel.java:43-48 | every spanning path of an L x L lattice has at least L sites |
| Burning.AllOccupiedShortest | percolation-model/src/main/java/pwr/edu/percolation/PercolationModel.java:43-48 | on a fully occupied lattice the shortest spanning path has exactly L sites |
| BurningIterations.BranchesFacts | percolation-model/src/main/java/pwr/edu/percolation/PercolationModel.java:62-81 | the four branches target four distinct sites and relabel exactly the neighbours of the polled site; they enqueue every neighbour still holding 1 except one reached from the row above on the last row |
| BurningIterations.StepAt | percolation-model/src/main/java/pwr/edu/percolation/PercolationModel.java:60-82 | one iteration changes a site only if it is a neighbour of the polled site that holds 1, and then sets it to the polled site's value + 1; sites holding 0 or more than 1 never change |
| BurningIterations.StepQueue | percolation-model/src/main/java/pwr/edu/percolation/PercolationModel.java:60-82 | one iteration removes the head and appends exactly the fresh neighbours, leaving out a south neighbour on the last row |
| BurningIterations.StepBudget | percolation-model/src/main/java/pwr/edu/percolation/PercolationModel.java:60-82 | one iteration strictly lowers the number of 1s plus the queue length, so the loop ends |
| BurningIterations.InitFrame | percolation-model/src/main/java/pwr/edu/percolation/PercolationModel.java:52-57 | after seeding only 1s have changed, every queued site is burnt, and the queue plus the 1s number at most L * L |
| BurningIterations.StepFrame | percolation-model/src/main/java/pwr/edu/percolation/PercolationModel.java:60-82 | every iteration keeps that frame with the iteration count added to the budget |
| BurningIterations.RunBound | percolation-model/src/main/java/pwr/edu/percolation/PercolationModel.java:52-82 | after n iterations from any square input, n plus the queue length is at most L * L: every site is enqueued at most once |
| BurningIterations.InitInv | percolation-model/src/main/java/pwr/edu/percolation/PercolationModel.java:52-57 | on a 0/1 lattice the seeded state satisfies the breadth-first invariant: the queue is ordered by distance, every burnt value is the length of a reaching path and no shorter one exists |
| BurningIterations.StepLayered | percolation-model/src/main/java/pwr/edu/percolation/PercolationModel.java:60-82 | an iteration keeps queue values non-decreasing and within one of the head |
| BurningIterations.StepClosed | percolation-model/src/main/java/pwr/edu/percolation/PercolationModel.java:60-82 | an iteration keeps every burnt, dequeued site off the last row free of neighbours holding 1 |
| BurningIterations.StepSound | percolation-model/src/main/java/pwr/edu/percolation/PercolationModel.java:60-82 | a site burnt with value v ends a reaching path of v - 1 sites |
| BurningIterations.LowerBound | percolation-model/src/main/java/pwr/edu/percolation/PercolationModel.java:60-82 | a reaching path to a site still holding 1 is at least as long as the head's value |
| BurningIterations.StepOptimal | percolation-model/src/main/java/pwr/edu/percolation/PercolationModel.java:60-82 | a site burnt with value v ends no reaching path shorter than v - 1 sites |
| BurningIterations.StepInv | percolation-model/src/main/java/pwr/edu/percolation/PercolationModel.java:60-82 | an iteration keeps the whole breadth-first invariant |
| BurningIterations.Complete | percolation-model/src/main/java/pwr/edu/percolation/PercolationModel.java:60-82 | when the queue is empty, the last site of every reaching path is burnt |
| BurningIterations.ScanBelowSpanning | percolation-model/src/main/java/pwr/edu/percolation/PercolationModel.java:84-87 | when the loop has ended, the scan is non-zero and no longer than any spanning path |
| BurningIterations.ScanWitness | percolation-model/src/main/java/pwr/edu/percolation/PercolationModel.java:84-87 | a non-zero scan is the length of some spanning path |
| BurningIterations.Outcome | percolation-model/src/main/java/pwr/edu/percolation/PercolationModel.java:49-88 | at the end the scan is 0 exactly when the lattice does not percolate, and otherwise the number of sites of a shortest spanning path |
| ShortestPath.RunInv | percolation-model/src/main/java/pwr/edu/percolation/PercolationModel.java:52-82 | the breadth-first invariant holds after every iteration the loop performs |
| ShortestPath.RunOutcome | percolation-model/src/main/java/pwr/edu/percolation/PercolationModel.java:49-88 | when the loop stops on a 0/1 lattice of side at most 46340, the scan decides percolation and gives the shortest spanning length |
| ShortestPath.BurnIteration | percolation-model/src/main/java/pwr/edu/percolation/PercolationModel.java:61-81 | the in-place loop body yields the state of one iteration of the loop function |
| ShortestPath.ShortestPathInModel | percolation-model/src/main/java/pwr/edu/percolation/PercolationModel.java:49-88 | the lattice ends as the state of the loop function with an empty queue, after at most L * L iterations; for a 0/1 lattice of side at most 46340 the result is 0 exactly when the lattice does not percolate and otherwise the shortest spanning length |
| EarlyShortestPath.EarlyBranchesFacts | src/main/java/pwr/edu/percolation/PercolationModel.java:59-78 | the earlier branches enqueue every neighbour still holding 1, but relabel the next-column neighbour only when its column index differs from L - 1 |
| EarlyShortestPath.EarlyStepAt | src/main/java/pwr/edu/percolation/PercolationModel.java:57-80 | one earlier iteration changes only relabelled neighbours holding 1, setting each to the polled value + 1 |
| EarlyShortestPath.EarlyStepQueue | src/main/java/pwr/edu/percolation/PercolationModel.java:57-80 | one earlier iteration removes the head and appends exactly the neighbours still holding 1 |
| EarlyShortestPath.EarlyStepPotential | src/main/java/pwr/edu/percolation/PercolationModel.java:57-80 | twice the number of 1s plus the queue weight strictly decreases, so the earlier loop ends although a last-column site can stay 1 and be enqueued twice |
| EarlyShortestPath.EarlyRunBound | src/main/java/pwr/edu/percolation/PercolationModel.java:48-80 | after n earlier iterations, n plus the queue length is at most 2 * L * L |
| EarlyShortestPath.EarlyIteration | src/main/java/pwr/edu/percolation/PercolationModel.java:58-78 | the in-place earlier loop body yields one iteration of the earlier loop function |
| EarlyShortestPath.EarlyShortestPathInModel | src/main/java/pwr/edu/percolation/PercolationModel.java:45-86 | the lattice ends as the earlier loop function's state with an empty queue, after at most 2 * L * L iterations, and the result is the last-row scan |
| EarlyShortestPath.WitnessRun | src/main/java/pwr/edu/percolation/PercolationModel.java:45-80 | the earlier loop's six iterations on [[1,0,0],[1,1,1],[0,0,1]] |
| EarlyShortestPath.WitnessFinal | src/main/java/pwr/edu/percolation/PercolationModel.java:45-80 | on that lattice the earlier loop ends with [[2,0,0],[3,4,3],[0,0,2]] |
| EarlyShortestPath.WitnessShortest | src/main/java/pwr/edu/percolation/PercolationModel.java:45-86 | the shortest spanning path of [[1,0,0],[1,1,1],[0,0,1]] has 5 sites |
| EarlyShortestPath.EarlyReportsTooShort | src/main/java/pwr/edu/percolation/PercolationModel.java:70-73 | on that lattice the earlier method returns 1 although the lattice percolates and its shortest spanning path has 5 sites |
| Labels.LabelForest.constructor | percolation-model/src/main/java/pwr/edu/percolation/PercolationModel.java:113 | a zeroed label array of the given size, an empty forest |
| Labels.LabelForest.UpdateCluster | percolation-model/src/main/java/pwr/edu/percolation/PercolationModel.java:168-173 | hands out the next label as its own root and keeps the forest; earlier labels are untouched |
| Labels.LabelForest.Find | percolation-model/src/main/java/pwr/edu/percolation/PercolationModel.java:179-189 | returns the root of label i; every label on the path of parent links from i now points straight at the root, every other slot of the array is unchanged, and the roots and the forest are kept |
| Labels.LabelForest.UnionFind | percolation-model/src/main/java/pwr/edu/percolation/PercolationModel.java:175-177 | returns the root of y; the class of x joins the class of y and every other class keeps its root |
| Labels.Hang | percolation-model/src/main/java/pwr/edu/percolation/PercolationModel.java:176 | hanging one root under another keeps the label array an acyclic forest |
| Labels.Compress | percolation-model/src/main/java/pwr/edu/percolation/PercolationModel.java:183-187 | re-pointing a label at its root keeps the forest and every root |
| StartSites.StartsBeforeBound | percolation-model/src/main/java/pwr/edu/percolation/PercolationModel.java:115-129 | at every scan position the first pass has handed out at most as many labels as on the whole lattice |
| StartSites.StartsBound | percolation-model/src/main/java/pwr/edu/percolation/PercolationModel.java:115-129 | the first pass hands out at most (L * L + 1) / 2 labels |
| LabelCapacity.SafeCapacitySuffices | percolation-model/src/main/java/pwr/edu/percolation/PercolationModel.java:113 | with (L * L + 1) / 2 + 1 slots every lattice's labels fit |
| LabelCapacity.CheckerboardStarts | percolation-model/src/main/java/pwr/edu/percolation/PercolationModel.java:113 | the checkerboard needs (L * L + 1) / 2 labels, so no smaller array serves every lattice |
| LabelCapacity.CheckerboardOverflows | percolation-model/src/main/java/pwr/edu/percolation/PercolationModel.java:168-173 | for every L the checkerboard needs at least L * L / 2 labels, one more than the source's array holds |
| LabelCapacity.DiagonalPair | percolation-model/src/main/java/pwr/edu/percolation/PercolationModel.java:113 | the diagonal pair [[1,0],[0,1]] needs 2 labels while the source allocates 2 slots, one of them the counter |
| HoshenKopelman.InitFirstPass | percolation-model/src/main/java/pwr/edu/percolation/PercolationModel.java:113-115 | before the scan, the untouched lattice and an empty forest satisfy the first-pass invariant |
| HoshenKopelman.VacantStep | percolation-model/src/main/java/pwr/edu/percolation/PercolationModel.java:117 | passing over a vacant site keeps the first-pass invariant |
| HoshenKopelman.NewLabelStep | percolation-model/src/main/java/pwr/edu/percolation/PercolationModel.java:123 | a site with both earlier neighbours vacant gets a new label of its own class |
| HoshenKopelman.JoinStep | percolation-model/src/main/java/pwr/edu/percolation/PercolationModel.java:124 | a site with one labelled earlier neighbour takes that neighbour's label |
| HoshenKopelman.MergeStep | percolation-model/src/main/java/pwr/edu/percolation/PercolationModel.java:125 | a site with two labelled earlier neighbours merges their classes and takes the merged root |
| HoshenKopelman.FirstPassSite | percolation-model/src/main/java/pwr/edu/percolation/PercolationModel.java:117-127 | one site of the first pass, in place, keeps the forest valid and the first-pass invariant |
| HoshenKopelman.OccupiedSite | percolation-model/src/main/java/pwr/edu/percolation/PercolationModel.java:118-126 | the switch on how many earlier neighbours are labelled keeps the first-pass invariant |
| HoshenKopelman.NewClusterSite | percolation-model/src/main/java/pwr/edu/percolation/PercolationModel.java:123 | case 0 in place: the site gets a new label and the invariant holds |
| HoshenKopelman.JoinSite | percolation-model/src/main/java/pwr/edu/percolation/PercolationModel.java:124 | case 1 in place: the site gets the larger, that is the non-zero, neighbour value and the invariant holds |
| HoshenKopelman.MergeSite | percolation-model/src/main/java/pwr/edu/percolation/PercolationModel.java:125 | case 2 in place: `unionFind(up, left)` merges the classes, the site gets the root and the invariant holds |
| HoshenKopelman.FirstScanRow | percolation-model/src/main/java/pwr/edu/percolation/PercolationModel.java:116-128 | one row of the first pass keeps the invariant |
| HoshenKopelman.FirstScan | percolation-model/src/main/java/pwr/edu/percolation/PercolationModel.java:115-129 | after the first pass every occupied site holds a label whose class agrees with its earlier neighbours' |
| HoshenKopelman.ProvisionalLabels | percolation-model/src/main/java/pwr/edu/percolation/PercolationModel.java:115-129 | after the first pass occupied sites hold labels 1 .. count and vacant ones 0 |
| HoshenKopelman.ConnectedIffSameClass | percolation-model/src/main/java/pwr/edu/percolation/PercolationModel.java:115-129 | after the first pass two occupied sites are connected exactly when their labels have the same root |
| HoshenKopelman.InitSecondPass | percolation-model/src/main/java/pwr/edu/percolation/PercolationModel.java:134 | a zeroed `new_labels` array starts the second-pass invariant |
| HoshenKopelman.RenameVacant | percolation-model/src/main/java/pwr/edu/percolation/PercolationModel.java:137 | passing over a vacant site keeps the second-pass invariant |
| HoshenKopelman.RenameSeen | percolation-model/src/main/java/pwr/edu/percolation/PercolationModel.java:138-143 | a site whose class already has an id takes that id |
| HoshenKopelman.RenameNew | percolation-model/src/main/java/pwr/edu/percolation/PercolationModel.java:138-143 | a site whose class has no id yet gets the next sequential id, and this site is recorded as where the id first appears |
| HoshenKopelman.SecondPassSite | percolation-model/src/main/java/pwr/edu/percolation/PercolationModel.java:137-144 | one site of the second pass, in place, keeps the second-pass invariant |
| HoshenKopelman.NewIdSite | percolation-model/src/main/java/pwr/edu/percolation/PercolationModel.java:139-143 | handing out a new id in place keeps the second-pass invariant |
| HoshenKopelman.SecondScanRow | percolation-model/src/main/java/pwr/edu/percolation/PercolationModel.java:136-144 | one row of the second pass keeps the invariant |
| HoshenKopelman.SecondScan | percolation-model/src/main/java/pwr/edu/percolation/PercolationModel.java:135-144 | the whole second pass keeps the invariant |
| HoshenKopelman.FinalConnected | percolation-model/src/main/java/pwr/edu/percolation/PercolationModel.java:111-146 | after both passes two occupied sites share an id exactly when they are connected |
| HoshenKopelman.FinalLabelling | percolation-model/src/main/java/pwr/edu/percolation/PercolationModel.java:111-146 | after both passes the lattice is a cluster labelling with ids 1 .. k, vacant sites unchanged |
| HoshenKopelman.FinalEncounter | percolation-model/src/main/java/pwr/edu/percolation/PercolationModel.java:135-145 | the ids are numbered in the order the raster scan first meets the clusters, and every id 1 .. k occurs |
| HoshenKopelman.BothPasses | percolation-model/src/main/java/pwr/edu/percolation/PercolationModel.java:111-146 | both passes give a cluster labelling in first-encounter order |
| HoshenKopelman.LabelClusters | percolation-model/src/main/java/pwr/edu/percolation/PercolationModel.java:111-146 | with label arrays large enough for the first pass, the lattice is relabelled in place with cluster ids 1 .. k in first-encounter order, and k is returned |
| ClusterStatistics.IdClass | percolation-model/src/main/java/pwr/edu/percolation/PercolationModel.java:151-163 | in a cluster labelling the sites carrying id v are the cluster of the id's first site, so their count is that cluster's size |
| ClusterStatistics.CountStep | percolation-model/src/main/java/pwr/edu/percolation/PercolationModel.java:154-160 | counting one more site keeps the occurrence map equal to the tally of the sites scanned |
| ClusterStatistics.CountRow | percolation-model/src/main/java/pwr/edu/percolation/PercolationModel.java:153-162 | one row of the counting loop keeps that tally |
| ClusterStatistics.CountOccurrences | percolation-model/src/main/java/pwr/edu/percolation/PercolationModel.java:151-163 | the occurrence map's keys are the non-zero values of the lattice, each mapped to its number of sites |
| ClusterStatistics.OccurrencesAreSizes | percolation-model/src/main/java/pwr/edu/percolation/PercolationModel.java:148-163 | on a cluster labelling the occurrence map sends every id 1 .. k to its cluster's size, and the counts add up to the occupied sites |
| ClusterStatistics.HistogramCounts | percolation-model/src/main/java/pwr/edu/percolation/PercolationModel.java:164-165 | the grouping's values add up to the number of ids |
| ClusterStatistics.HistogramWeights | percolation-model/src/main/java/pwr/edu/percolation/PercolationModel.java:164-165 | each size times its number of ids, summed over the grouping, equals the sum of the counts |
| ClusterStatistics.HistogramIsDistribution | percolation-model/src/main/java/pwr/edu/percolation/PercolationModel.java:164-165 | grouping an occurrence map of cluster sizes gives the size distribution: keys are exactly the cluster sizes, each with its number of clusters |
| ClusterStatistics.SizeDistribution | percolation-model/src/main/java/pwr/edu/percolation/PercolationModel.java:148-166 | on a labelled lattice, the occurrence map gives every id its cluster's size and the grouping is the size distribution |
| ClusterStatistics.MaxKey | percolation-model/src/main/java/pwr/edu/percolation/PercolationModel.java:99 | the largest key, or 0 for no keys |
| ClusterStatistics.LargestCluster | percolation-model/src/main/java/pwr/edu/percolation/PercolationModel.java:98-100 | the largest key of the distribution is 0 exactly when no site is occupied, bounds every cluster size and is attained by one |
| PercolationModel.ClusterCountFinding | percolation-model/src/main/java/pwr/edu/percolation/PercolationModel.java:90-92 | when the first pass needs fewer labels than the `L * L / 2` slots of the label arrays, the lattice is relabelled with cluster ids in first-encounter order and the number of clusters is returned |
| PercolationModel.DistributionOfClusters | percolation-model/src/main/java/pwr/edu/percolation/PercolationModel.java:94-96 | under the same `L * L / 2` bound, the result is the cluster-size distribution of the input lattice |
| PercolationModel.MaxClusterSize | percolation-model/src/main/java/pwr/edu/percolation/PercolationModel.java:98-100 | under the same `L * L / 2` bound, the size of the largest cluster, or 0 exactly when no site is occupied; the lattice is left relabelled with cluster ids in first-encounter order |
| PercolationModel.SafeClusterCountFinding | percolation-model/src/main/java/pwr/edu/percolation/PercolationModel.java:90-92 | with label arrays of (L * L + 1) / 2 + 1 slots, every non-negative square lattice is relabelled with cluster ids in first-encounter order and the number of clusters is returned |
| PercolationModel.SafeDistributionOfClusters | percolation-model/src/main/java/pwr/edu/percolation/PercolationModel.java:94-96 | with the safe label arrays, the cluster-size distribution of every non-negative square lattice |
| PercolationModel.SafeMaxClusterSize | percolation-model/src/main/java/pwr/edu/percolation/PercolationModel.java:98-100 | with the safe label arrays, the size of the largest cluster of every non-negative square lattice, or 0 exactly when no site is occupied; the lattice is left relabelled with cluster ids in first-encounter order |
| EarlyPercolationModel.ClusterFinding | src/main/java/pwr/edu/percolation/PercolationModel.java:104-142 | when the first pass fits the L * L / 2 slots, returns the same array relabelled with cluster ids in first-encounter order, and k as the printed total |
| EarlyPercolationModel.DistributionOfClusters | src/main/java/pwr/edu/percolation/PercolationModel.java:144-163 | the two printed maps: each id's cluster size, and the size distribution |
| MainExample.MainLatticeLiteral | src/main/java/pwr/edu/percolation/Main.java:23-33 | the model's lattice is the 8 x 8 matrix of `Main` |
| MainExample.ConnectedRow | src/main/java/pwr/edu/percolation/Main.java:23-33 | two occupied sites of that lattice are connected exactly when they lie in the same row |
| MainExample.DominoSize | src/main/java/pwr/edu/percolation/Main.java:23-33 | every cluster of that lattice has two sites |
| MainExample.FourIds | src/main/java/pwr/edu/percolation/Main.java:23-37 | any cluster labelling of that lattice uses exactly 4 ids |
| MainExample.MainLatticeOccurrences | src/main/java/pwr/edu/percolation/Main.java:23-37 | its occurrence map is {1: 2, 2: 2, 3: 2, 4: 2} |
| MainExample.MainLatticeSizes | src/main/java/pwr/edu/percolation/Main.java:23-37 | its distribution is {2: 4} |
| MainExample.MainLatticeDistribution | src/main/java/pwr/edu/percolation/Main.java:23-37 | `distributionOfClusters` on the lattice of `Main` finds 4 clusters, the occurrence map {1: 2, 2: 2, 3: 2, 4: 2} and the distribution {2: 4} |

## Left out

- The random draw. `generateLatticeModel` compares `rand.nextDouble()` with the occupation probability. The outcomes of those comparisons are an input matrix of booleans. So the later `<=` and the earlier `<` comparison are the same model, and the earlier `generateLatticeModel` is covered by `LatticeArrays.GenerateLatticeModel`.
- `getEmptyModel` and `arrayCopy` of the earlier version match the later ones and share their members.
- Console output (`printMatrix`, `System.out.println`) is not modelled. The earlier `clusterFinding` and `distributionOfClusters` return what they print.
- The Monte Carlo driver, the parameter handling, the `Main` console program and the plotting script are not part of this model.
- Java arrays are `int[][]`, which may be ragged and may share rows. The model uses `array2<int>`, which is square here and has no aliased rows.
- `Pair` is a datatype. The `ArrayDeque` queue is a sequence.
- The `HashMap` occurrence map and the `TreeMap`/`HashMap` grouping are `map<int, int>`. Their iteration order is not modelled, and neither are the `Long` counts.
- `assert (labels[0] < labels.length)` in `updateCluster` is a precondition. A store outside the array would throw, and that exception path is not modelled. The same bound is a precondition of HoshenKopelman.LabelClusters, of the two EarlyPercolationModel methods and of PercolationModel.ClusterCountFinding, PercolationModel.DistributionOfClusters and PercolationModel.MaxClusterSize: on a lattice whose first pass needs `L * L / 2` labels or more (every 1 x 1 lattice, [[1,0],[0,1]], every checkerboard) the source throws, and those members make no promise. The `Safe` methods of `PercolationModel` are the corrected operations and accept every non-negative lattice.
- PercolationModel.ClusterCountFinding: requires the first pass to need fewer than `L * L / 2` labels; where it needs more the source throws from `updateCluster` or at `return new_labels[0]`, and PercolationModel.SafeClusterCountFinding is the corrected operation.
- PercolationModel.DistributionOfClusters: the same bound, since it runs `maxClusterFinding` first; PercolationModel.SafeDistributionOfClusters is the corrected operation.
- PercolationModel.MaxClusterSize: the same bound, since it runs `distributionOfClusters`; PercolationModel.SafeMaxClusterSize is the corrected operation.
- ShortestPath.ShortestPathInModel: the shortest-path guarantee is stated for 0/1 lattices of side at most 46340. For those, burnt values stay below `Integer.MAX_VALUE`. Wrap-around of Java `int` beyond that is not modelled. For other inputs the method is tied only to the loop function and the last-row scan.
- EarlyShortestPath.EarlyShortestPathInModel: no optimality is claimed, because the earlier method is wrong (see "## Findings").
- ShortestPath.ShortestPathInModel and EarlyShortestPath.EarlyShortestPathInModel require a lattice of side at least 1. On a 0 x 0 lattice `lastRowIndex` is -1 and both sources throw when they read `model[lastRowIndex]`; that exception is not modelled.
- HoshenKopelman.LabelClusters: requires a non-negative lattice. A negative site counts as a labelled neighbour, and the second pass then calls `find` with a negative index, which throws.
- The number of steps of the burning loop and the first site of each cluster are ghost outputs. Only the proofs use them.

## Findings

| source | as written | input that shows it | evidently intended | confidence | as-written member | corrected member |
|---|---|---|---|---|---|---|
| src/main/java/pwr/edu/percolation/PercolationModel.java:70-73 | the branch for the next-column neighbour enqueues it but adds the polled value only when `cell.y + 1 != lastRowIndex`, comparing a column with the last row's index; a last-column site then stays 1, and when polled it burns its neighbours with 1 + 1 | the 3 x 3 lattice [[1,0,0],[1,1,1],[0,0,1]]: the method returns 1, while the shortest spanning path has 5 sites | relabel every reached neighbour and leave only the last-row sites unqueued, as the later version does | not executed | EarlyShortestPath.EarlyReportsTooShort | ShortestPath.ShortestPathInModel |
| percolation-model/src/main/java/pwr/edu/percolation/PercolationModel.java:113 | both label arrays get `model.length * model.length / 2` slots; the same sizes appear at lines 106 and 127 of the earlier file | the 2 x 2 lattice [[1,0],[0,1]] needs labels 1 and 2 in a 2-slot array; on a 1 x 1 lattice the arrays are empty and even `new_labels[0]` is out of bounds | (L * L + 1) / 2 + 1 slots: slot 0 plus one per start, which the checkerboard attains | not executed | LabelCapacity.CheckerboardOverflows | PercolationModel.SafeClusterCountFinding |
