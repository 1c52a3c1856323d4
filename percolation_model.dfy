/**
 * The public lattice operations of the later `PercolationModel` that rest on
 * the Hoshen–Kopelman labelling: the cluster count, the cluster-size
 * distribution and the largest cluster.
 *
 * The first three methods are the source as written: both label arrays have
 * `L * L / 2` slots, so a lattice is accepted only when its first pass needs
 * fewer labels than that (on any other lattice the source throws; see
 * `LabelCapacity.CheckerboardOverflows`). The `Safe` methods are the same
 * operations with the label arrays of the safe size, which accept every
 * non-negative lattice.
 */
module PercolationModel {
  import opened Lattice
  import opened StartSites
  import opened LabelCapacity
  import opened HoshenKopelman
  import opened ClusterStatistics

  /**
   * `clusterCountFinding`, which runs `maxClusterFinding`: relabels every
   * cluster of the lattice in place with its id 1 .. k, numbered in the order
   * the raster scan first meets the clusters, and returns the number k of
   * clusters.
   */
  method ClusterCountFinding(model: array2<int>) returns (k: int, ghost firsts: seq<Pair>)
    requires model.Length0 == model.Length1 && NonNegative(Snapshot(model))
    requires Starts(Snapshot(model)) < JavaCapacity(model.Length0)
    modifies model
    ensures ClusterLabelling(old(Snapshot(model)), Snapshot(model), k)
    ensures FirstEncounter(old(Snapshot(model)), Snapshot(model), k, firsts)
  {
    k, firsts := LabelClusters(model, JavaCapacity(model.Length0));
  }

  /**
   * `distributionOfClusters`: labels the lattice in place, counts the sites of
   * every id and groups the counts, giving for every cluster size the number
   * of clusters of that size.
   */
  method DistributionOfClusters(model: array2<int>) returns (dist: map<int, int>, ghost k: int, ghost firsts: seq<Pair>)
    requires model.Length0 == model.Length1 && NonNegative(Snapshot(model))
    requires Starts(Snapshot(model)) < JavaCapacity(model.Length0)
    modifies model
    ensures ClusterLabelling(old(Snapshot(model)), Snapshot(model), k)
    ensures FirstEncounter(old(Snapshot(model)), Snapshot(model), k, firsts)
    ensures Distribution(old(Snapshot(model)), k, firsts, dist)
  {
    ghost var g0 := Snapshot(model);
    k, firsts := ClusterCountFinding(model);
    var occ;
    occ, dist := SizeDistribution(model, g0, k, firsts);
  }

  /**
   * `maxClusterSize`: the largest key of the distribution, or 0 when there
   * is none. It is the number of sites of the largest cluster, and 0 exactly
   * when no site is occupied. The lattice is left labelled, as by
   * `ClusterCountFinding`.
   */
  method MaxClusterSize(model: array2<int>) returns (r: int, ghost k: int, ghost firsts: seq<Pair>)
    requires model.Length0 == model.Length1 && NonNegative(Snapshot(model))
    requires Starts(Snapshot(model)) < JavaCapacity(model.Length0)
    modifies model
    ensures r == 0 <==> OccupiedSites(old(Snapshot(model))) == {}
    ensures forall c :: Occupied(old(Snapshot(model)), c) ==> ClusterSize(old(Snapshot(model)), c) <= r
    ensures r != 0 ==> exists c :: Occupied(old(Snapshot(model)), c) && ClusterSize(old(Snapshot(model)), c) == r
    ensures ClusterLabelling(old(Snapshot(model)), Snapshot(model), k)
    ensures FirstEncounter(old(Snapshot(model)), Snapshot(model), k, firsts)
  {
    ghost var g0 := Snapshot(model);
    var dist;
    dist, k, firsts := DistributionOfClusters(model);
    r := MaxKey(dist.Keys);
    LargestCluster(g0, k, firsts, dist, r);
  }

  /** `ClusterCountFinding` with label arrays of the safe size: every non-negative lattice is accepted. */
  method SafeClusterCountFinding(model: array2<int>) returns (k: int, ghost firsts: seq<Pair>)
    requires model.Length0 == model.Length1 && NonNegative(Snapshot(model))
    modifies model
    ensures ClusterLabelling(old(Snapshot(model)), Snapshot(model), k)
    ensures FirstEncounter(old(Snapshot(model)), Snapshot(model), k, firsts)
  {
    SafeCapacitySuffices(Snapshot(model));
    k, firsts := LabelClusters(model, SafeCapacity(model.Length0));
  }

  /** `DistributionOfClusters` with label arrays of the safe size. */
  method SafeDistributionOfClusters(model: array2<int>) returns (dist: map<int, int>, ghost k: int, ghost firsts: seq<Pair>)
    requires model.Length0 == model.Length1 && NonNegative(Snapshot(model))
    modifies model
    ensures ClusterLabelling(old(Snapshot(model)), Snapshot(model), k)
    ensures FirstEncounter(old(Snapshot(model)), Snapshot(model), k, firsts)
    ensures Distribution(old(Snapshot(model)), k, firsts, dist)
  {
    ghost var g0 := Snapshot(model);
    k, firsts := SafeClusterCountFinding(model);
    var occ;
    occ, dist := SizeDistribution(model, g0, k, firsts);
  }

  /** `MaxClusterSize` with label arrays of the safe size. */
  method SafeMaxClusterSize(model: array2<int>) returns (r: int, ghost k: int, ghost firsts: seq<Pair>)
    requires model.Length0 == model.Length1 && NonNegative(Snapshot(model))
    modifies model
    ensures r == 0 <==> OccupiedSites(old(Snapshot(model))) == {}
    ensures forall c :: Occupied(old(Snapshot(model)), c) ==> ClusterSize(old(Snapshot(model)), c) <= r
    ensures r != 0 ==> exists c :: Occupied(old(Snapshot(model)), c) && ClusterSize(old(Snapshot(model)), c) == r
    ensures ClusterLabelling(old(Snapshot(model)), Snapshot(model), k)
    ensures FirstEncounter(old(Snapshot(model)), Snapshot(model), k, firsts)
  {
    ghost var g0 := Snapshot(model);
    var dist;
    dist, k, firsts := SafeDistributionOfClusters(model);
    r := MaxKey(dist.Keys);
    LargestCluster(g0, k, firsts, dist, r);
  }
}
