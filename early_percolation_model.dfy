/**
 * The cluster operations of the earlier `PercolationModel`, as written: the
 * label arrays have `L * L / 2` slots, so a lattice is accepted only when its
 * first pass needs fewer labels than that. The console output of both
 * operations is returned instead of printed.
 */
module EarlyPercolationModel {
  import opened Lattice
  import opened StartSites
  import opened LabelCapacity
  import opened HoshenKopelman
  import opened ClusterStatistics

  /**
   * `clusterFinding`: relabels every cluster of the lattice in place with its
   * id 1 .. k in first-encounter order and returns the same array; k is the
   * `total_clusters` the source prints.
   */
  method ClusterFinding(model: array2<int>) returns (labelled: array2<int>, k: int, ghost firsts: seq<Pair>)
    requires model.Length0 == model.Length1 && NonNegative(Snapshot(model))
    requires Starts(Snapshot(model)) < JavaCapacity(model.Length0)
    modifies model
    ensures labelled == model
    ensures ClusterLabelling(old(Snapshot(model)), Snapshot(model), k)
    ensures FirstEncounter(old(Snapshot(model)), Snapshot(model), k, firsts)
  {
    k, firsts := LabelClusters(model, JavaCapacity(model.Length0));
    labelled := model;
  }

  /**
   * `distributionOfClusters`: labels the lattice, then returns the occurrence
   * map (id to number of sites) and its grouping (size to number of clusters),
   * the two maps the source prints.
   */
  method DistributionOfClusters(model: array2<int>)
    returns (occurrences: map<int, int>, collect: map<int, int>, ghost k: int, ghost firsts: seq<Pair>)
    requires model.Length0 == model.Length1 && NonNegative(Snapshot(model))
    requires Starts(Snapshot(model)) < JavaCapacity(model.Length0)
    modifies model
    ensures ClusterLabelling(old(Snapshot(model)), Snapshot(model), k)
    ensures FirstEncounter(old(Snapshot(model)), Snapshot(model), k, firsts)
    ensures IdSizes(old(Snapshot(model)), k, firsts, occurrences)
    ensures Distribution(old(Snapshot(model)), k, firsts, collect)
  {
    ghost var g0 := Snapshot(model);
    var ints;
    ints, k, firsts := ClusterFinding(model);
    occurrences, collect := SizeDistribution(ints, g0, k, firsts);
  }
}
