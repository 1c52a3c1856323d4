/**
 * Cluster statistics over a labelled lattice: how many sites carry each id
 * (the `labelOnOccurrences` map), the size histogram grouped from it, and
 * the largest cluster size.
 */
module ClusterStatistics {
  import opened Lattice
  import opened FiniteSums
  import opened HoshenKopelman

  /** The sites of an L x L lattice. */
  ghost function Sites(L: int): (s: set<Pair>)
    ensures forall c {:trigger c in s} :: c in s <==> 0 <= c.x < L && 0 <= c.y < L
  {
    set x, y | 0 <= x < L && 0 <= y < L :: Pair(x, y)
  }

  /** The sites of an L x L lattice scanned before (i, j) in raster order. */
  ghost function Scanned(L: int, i: int, j: int): (s: set<Pair>)
    ensures forall c {:trigger c in s} :: c in s <==> 0 <= c.x < L && 0 <= c.y < L && (c.x < i || (c.x == i && c.y < j))
  {
    set x, y | 0 <= x < L && 0 <= y < L && (x < i || (x == i && y < j)) :: Pair(x, y)
  }

  /** The state of each site, as a key to group sites by. */
  ghost function Value(h: Grid): Pair -> int {
    c => At(h, c)
  }

  /** A map read as a total function, 0 off its keys. */
  ghost function Lookup(m: map<int, int>): int -> int {
    k => if k in m then m[k] else 0
  }

  /** Each key of a map times its value, 0 off its keys. */
  ghost function Weight(m: map<int, int>): int -> int {
    k => if k in m then k * m[k] else 0
  }

  /** How many sites of the lattice hold `v`. */
  ghost function Occurrences(h: Grid, v: int): nat {
    |Class(Sites(|h|), Value(h), v)|
  }

  /** How many sites scanned before (i, j) hold `v`. */
  ghost function Tally(h: Grid, i: int, j: int, v: int): nat {
    |Class(Scanned(|h|, i, j), Value(h), v)|
  }

  /** The ids 1 .. k. */
  ghost function Ids(k: int): (s: set<int>)
    ensures forall v :: v in s <==> 1 <= v <= k
    decreases k
  {
    if k <= 0 then {} else Ids(k - 1) + {k}
  }

  /** The occupied sites of the lattice. */
  ghost function OccupiedSites(g: Grid): set<Pair> {
    set c | c in Sites(|g|) && Occupied(g, c)
  }

  /** The cluster of site `c`: every site connected to it. */
  ghost function Cluster(g: Grid, c: Pair): set<Pair> {
    set d | d in Sites(|g|) && Connected(g, c, d)
  }

  ghost function ClusterSize(g: Grid, c: Pair): nat {
    |Cluster(g, c)|
  }

  /** `occ` holds the count of every non-zero value among the sites scanned before (i, j). */
  ghost predicate Counted(h: Grid, occ: map<int, int>, i: int, j: int) {
    forall v :: (v in occ <==> v != 0 && Tally(h, i, j, v) > 0) && (v in occ ==> occ[v] == Tally(h, i, j, v))
  }

  /**
   * The occurrence map of a labelled lattice: its keys are the ids 1 .. k and
   * each id maps to the size of the cluster it names.
   */
  ghost predicate IdSizes(g0: Grid, k: int, firsts: seq<Pair>, occ: map<int, int>) {
    |firsts| == k &&
    (forall v :: v in occ <==> 1 <= v <= k) &&
    (forall v :: 1 <= v <= k ==> occ[v] == ClusterSize(g0, firsts[v - 1]))
  }

  /**
   * The size distribution of the clusters of `g0`: the keys are exactly the
   * sizes of its clusters, each size maps to the number of clusters of that
   * size, the counts add up to the k clusters and the sizes times the counts
   * add up to the occupied sites.
   */
  ghost predicate Distribution(g0: Grid, k: int, firsts: seq<Pair>, dist: map<int, int>) {
    |firsts| == k &&
    (forall s :: s in dist <==> exists c :: Occupied(g0, c) && ClusterSize(g0, c) == s) &&
    (forall s :: s in dist ==> dist[s] == |set v | v in Ids(k) && ClusterSize(g0, firsts[v - 1]) == s|) &&
    (forall s :: s in dist ==> s >= 1 && dist[s] >= 1) &&
    Sum(dist.Keys, Lookup(dist)) == k &&
    Sum(dist.Keys, Weight(dist)) == |OccupiedSites(g0)|
  }

  /**
   * `Collectors.groupingBy(Function.identity(), counting())` over the values
   * of the occurrence map: each occurring count maps to the number of ids
   * that have it.
   */
  function Histogram(occ: map<int, int>): map<int, int> {
    map s | s in occ.Values :: |set v | v in occ && occ[v] == s|
  }

  // ---------------------------------------------------------------------------
  // The histogram of any map

  /** In a map whose keys are 1 .. k, a histogram entry counts the keys holding its value. */
  lemma HistogramOfIds(k: int, occ: map<int, int>, s: int)
    requires forall v :: v in occ <==> 1 <= v <= k
    requires s in Histogram(occ)
    ensures Histogram(occ)[s] == |set v | v in Ids(k) && occ[v] == s|
  {
    assert (set v | v in occ && occ[v] == s) == set v | v in Ids(k) && occ[v] == s;
  }

  lemma SameMembers(a: set<int>, b: set<int>)
    requires forall x :: x in a <==> x in b
    ensures a == b
  {
    forall x | x in a ensures x in b {}
    forall x | x in b ensures x in a {}
  }

  /** A key holding a value of the map. */
  lemma KeyOf<K, V>(m: map<K, V>, s: V) returns (v: K)
    requires s in m.Values
    ensures v in m && m[v] == s
  {
    v :| v in m && m[v] == s;
  }

  /** Each histogram entry counts the keys of `occ` that hold its size. */
  lemma HistogramClasses(occ: map<int, int>)
    ensures Histogram(occ).Keys == occ.Values
    ensures forall s :: s in Histogram(occ) ==> Histogram(occ)[s] == ClassSize(occ.Keys, Lookup(occ))(s)
  {
    var r := Histogram(occ);
    forall s | s in r
      ensures r[s] == ClassSize(occ.Keys, Lookup(occ))(s)
    {
      assert (set v | v in occ && occ[v] == s) == Class(occ.Keys, Lookup(occ), s);
    }
  }

  /** Every key's count is in the histogram, which has no empty bucket. */
  lemma HistogramPositive(occ: map<int, int>)
    ensures forall v :: v in occ ==> occ[v] in Histogram(occ) && Histogram(occ)[occ[v]] >= 1
    ensures forall s :: s in Histogram(occ) ==> Histogram(occ)[s] >= 1
  {
    var r := Histogram(occ);
    forall s | s in r
      ensures r[s] >= 1
    {
      var v := KeyOf(occ, s);
      HistogramClasses(occ);
      assert v in Class(occ.Keys, Lookup(occ), s);
    }
  }

  /** The histogram counts every key of `occ` exactly once. */
  lemma HistogramCounts(occ: map<int, int>)
    ensures Sum(Histogram(occ).Keys, Lookup(Histogram(occ))) == |occ|
  {
    var r := Histogram(occ);
    HistogramClasses(occ);
    SumAgree(r.Keys, Lookup(r), ClassSize(occ.Keys, Lookup(occ)));
    ClassSizes(occ.Keys, Lookup(occ), r.Keys);
    assert Within(occ.Keys, Lookup(occ), r.Keys) == occ.Keys;
  }

  /** Summing size times count over the histogram sums the values of `occ`. */
  lemma HistogramWeights(occ: map<int, int>)
    ensures Sum(Histogram(occ).Keys, Weight(Histogram(occ))) == Sum(occ.Keys, Lookup(occ))
  {
    var r := Histogram(occ);
    HistogramClasses(occ);
    SumAgree(r.Keys, Weight(r), ClassWeight(occ.Keys, Lookup(occ)));
    ClassWeights(occ.Keys, Lookup(occ), r.Keys);
    assert Within(occ.Keys, Lookup(occ), r.Keys) == occ.Keys;
    SumAgree(occ.Keys, Lookup(occ), Lookup(occ));
  }

  // ---------------------------------------------------------------------------
  // Clusters

  lemma ConnectedOccupied(g: Grid, a: Pair, b: Pair)
    requires Connected(g, a, b)
    ensures Occupied(g, a) && Occupied(g, b)
  {
  }

  /** Connected sites have the same cluster. */
  lemma SameCluster(g: Grid, a: Pair, b: Pair)
    requires Connected(g, a, b)
    ensures Cluster(g, a) == Cluster(g, b)
  {
    ConnectedSym(g, a, b);
    forall d | Connected(g, a, d)
      ensures Connected(g, b, d)
    {
      ConnectedTrans(g, b, a, d);
    }
    forall d | Connected(g, b, d)
      ensures Connected(g, a, d)
    {
      ConnectedTrans(g, a, b, d);
    }
  }

  /** An occupied site lies in its own cluster. */
  lemma ClusterSizePositive(g: Grid, c: Pair)
    requires Occupied(g, c)
    ensures ClusterSize(g, c) >= 1
  {
    ConnectedRefl(g, c);
    assert c in Cluster(g, c);
  }

  /** A site that the labelling leaves at a non-zero value was occupied. */
  lemma NonZeroOccupied(g0: Grid, h: Grid, k: int, c: Pair)
    requires NonNegative(g0) && ClusterLabelling(g0, h, k)
    requires InGrid(g0, c) && At(h, c) != 0
    ensures Occupied(g0, c) && 1 <= At(h, c) <= k
  {
  }

  /** Id v, 1 <= v <= k, sits on the occupied site `firsts[v - 1]`. */
  ghost predicate Representatives(g0: Grid, h: Grid, k: int, firsts: seq<Pair>) {
    |firsts| == k &&
    forall m :: 0 <= m < |firsts| ==> Occupied(g0, firsts[m]) && At(h, firsts[m]) == m + 1
  }

  /** The sites holding id v, 1 <= v <= k, are the cluster of the first site labelled v. */
  lemma IdClass(g0: Grid, h: Grid, k: int, firsts: seq<Pair>, v: int)
    requires NonNegative(g0) && ClusterLabelling(g0, h, k) && Representatives(g0, h, k, firsts)
    requires 1 <= v <= k
    ensures Class(Sites(|h|), Value(h), v) == Cluster(g0, firsts[v - 1])
    ensures Occurrences(h, v) == ClusterSize(g0, firsts[v - 1])
  {
    var f := firsts[v - 1];
    forall d | d in Class(Sites(|h|), Value(h), v)
      ensures d in Cluster(g0, f)
    {
      NonZeroOccupied(g0, h, k, d);
    }
    forall d | d in Cluster(g0, f)
      ensures d in Class(Sites(|h|), Value(h), v)
    {
      ConnectedOccupied(g0, f, d);
    }
  }

  /** A non-zero value occurs in the labelled lattice exactly when it is an id 1 .. k. */
  lemma IdOccurs(g0: Grid, h: Grid, k: int, firsts: seq<Pair>, v: int)
    requires NonNegative(g0) && ClusterLabelling(g0, h, k) && Representatives(g0, h, k, firsts)
    ensures v != 0 && Occurrences(h, v) > 0 <==> 1 <= v <= k
  {
    if v != 0 && Occurrences(h, v) > 0 {
      var d := Pick(Class(Sites(|h|), Value(h), v));
      NonZeroOccupied(g0, h, k, d);
    }
    if 1 <= v <= k {
      assert firsts[v - 1] in Class(Sites(|h|), Value(h), v);
    }
  }

  /** Every site the labelling leaves non-zero is occupied, so they are the occupied sites. */
  lemma LabelledSites(g0: Grid, h: Grid, k: int)
    requires NonNegative(g0) && ClusterLabelling(g0, h, k)
    ensures Within(Sites(|h|), Value(h), Ids(k)) == OccupiedSites(g0)
  {
    forall c | c in Within(Sites(|h|), Value(h), Ids(k))
      ensures Occupied(g0, c)
    {
      NonZeroOccupied(g0, h, k, c);
    }
  }

  // ---------------------------------------------------------------------------
  // The counting loop

  lemma ScannedNext(h: Grid, i: int, j: int, v: int)
    requires 0 <= i < |h| && 0 <= j < |h|
    ensures Tally(h, i, j + 1, v) == Tally(h, i, j, v) + if At(h, Pair(i, j)) == v then 1 else 0
  {
    var before := Class(Scanned(|h|, i, j), Value(h), v);
    var after := Class(Scanned(|h|, i, j + 1), Value(h), v);
    if At(h, Pair(i, j)) == v {
      assert after == before + {Pair(i, j)};
    } else {
      assert after == before;
    }
  }

  lemma ScannedRow(h: Grid, i: int)
    ensures Scanned(|h|, i, |h|) == Scanned(|h|, i + 1, 0)
  {
  }

  /** Counting the site (i, j) as the loop body does extends the count by one site. */
  lemma CountStep(h: Grid, occ: map<int, int>, occ': map<int, int>, i: int, j: int)
    requires 0 <= i < |h| && 0 <= j < |h| && Counted(h, occ, i, j)
    requires var v := At(h, Pair(i, j));
      occ' == if v == 0 then occ else if v !in occ then occ[v := 1] else occ[v := occ[v] + 1]
    ensures Counted(h, occ', i, j + 1)
  {
    forall w
      ensures (w in occ' <==> w != 0 && Tally(h, i, j + 1, w) > 0) && (w in occ' ==> occ'[w] == Tally(h, i, j + 1, w))
    {
      ScannedNext(h, i, j, w);
    }
  }

  lemma CountStart(h: Grid)
    ensures Counted(h, map[], 0, 0)
  {
    forall v
      ensures Tally(h, 0, 0, v) == 0
    {
      assert Class(Scanned(|h|, 0, 0), Value(h), v) == {};
    }
  }

  lemma CountEnd(h: Grid, occ: map<int, int>)
    requires Counted(h, occ, |h|, 0)
    ensures forall v :: v in occ <==> v != 0 && Occurrences(h, v) > 0
    ensures forall v :: v in occ ==> occ[v] == Occurrences(h, v)
  {
    assert Scanned(|h|, |h|, 0) == Sites(|h|);
  }

  /**
   * The `labelOnOccurrences` loop: a raster scan that counts, for every
   * non-zero value, the sites holding it.
   */
  method CountOccurrences(model: array2<int>) returns (occ: map<int, int>)
    requires model.Length0 == model.Length1
    ensures forall v :: v in occ <==> v != 0 && Occurrences(Snapshot(model), v) > 0
    ensures forall v :: v in occ ==> occ[v] == Occurrences(Snapshot(model), v)
  {
    occ := map[];
    CountStart(Snapshot(model));
    var i := 0;
    while i < model.Length0
      invariant 0 <= i <= model.Length0 && Counted(Snapshot(model), occ, i, 0)
    {
      occ := CountRow(model, occ, i);
      i := i + 1;
    }
    CountEnd(Snapshot(model), occ);
  }

  /** One row of the `labelOnOccurrences` loop. */
  method CountRow(model: array2<int>, occ0: map<int, int>, i: int) returns (occ: map<int, int>)
    requires model.Length0 == model.Length1 && 0 <= i < model.Length0
    requires Counted(Snapshot(model), occ0, i, 0)
    ensures Counted(Snapshot(model), occ, i + 1, 0)
  {
    ghost var h := Snapshot(model);
    occ := occ0;
    var j := 0;
    while j < model.Length1
      invariant 0 <= j <= model.Length1 && Counted(h, occ, i, j)
    {
      var v := model[i, j];
      SnapshotAt(model, Pair(i, j));
      ghost var before := occ;
      if v != 0 {
        if v !in occ {
          occ := occ[v := 1];
        } else {
          occ := occ[v := occ[v] + 1];
        }
      }
      CountStep(h, before, occ, i, j);
      j := j + 1;
    }
    ScannedRow(h, i);
  }

  // ---------------------------------------------------------------------------
  // The distribution of a labelled lattice

  /** On a labelled lattice the occurrence map sends every id to the size of its cluster. */
  lemma OccurrencesAreSizes(g0: Grid, h: Grid, k: int, firsts: seq<Pair>, occ: map<int, int>)
    requires NonNegative(g0) && ClusterLabelling(g0, h, k) && FirstEncounter(g0, h, k, firsts)
    requires forall v :: v in occ <==> v != 0 && Occurrences(h, v) > 0
    requires forall v :: v in occ ==> occ[v] == Occurrences(h, v)
    ensures IdSizes(g0, k, firsts, occ)
    ensures Sum(occ.Keys, Lookup(occ)) == |OccupiedSites(g0)|
  {
    OccurrenceIds(g0, h, k, firsts, occ);
    OccurrenceTotal(g0, h, k, occ);
  }

  /**
   * `ClusterLabelling(g0, h, k)` held back from the solver until `Ids(k)` is
   * mentioned, so that the lemmas over all ids below stay cheap.
   */
  ghost predicate LabellingOfIds(g0: Grid, h: Grid, k: int) {
    forall n {:trigger Ids(n)} :: n == k ==> ClusterLabelling(g0, h, n)
  }

  lemma SealLabelling(g0: Grid, h: Grid, k: int)
    requires ClusterLabelling(g0, h, k)
    ensures LabellingOfIds(g0, h, k)
  {
  }

  /** The labels counted are the ids 1..k, each counted as often as its cluster has sites. */
  lemma OccurrenceIds(g0: Grid, h: Grid, k: int, firsts: seq<Pair>, occ: map<int, int>)
    requires NonNegative(g0) && ClusterLabelling(g0, h, k) && Representatives(g0, h, k, firsts)
    requires forall v :: v in occ <==> v != 0 && Occurrences(h, v) > 0
    requires forall v :: v in occ ==> occ[v] == Occurrences(h, v)
    ensures IdSizes(g0, k, firsts, occ)
  {
    SealLabelling(g0, h, k);
    OccurrenceKeys(g0, h, k, firsts, occ);
    OccurrenceCounts(g0, h, k, firsts, occ);
  }

  /** The labels counted are the ids 1..k. */
  lemma OccurrenceKeys(g0: Grid, h: Grid, k: int, firsts: seq<Pair>, occ: map<int, int>)
    requires NonNegative(g0) && LabellingOfIds(g0, h, k) && Representatives(g0, h, k, firsts)
    requires forall v :: v in occ <==> v != 0 && Occurrences(h, v) > 0
    ensures forall v :: v in occ <==> 1 <= v <= k
  {
    forall v
      ensures v in occ <==> 1 <= v <= k
    {
      IdOccursOfIds(g0, h, k, firsts, v);
    }
  }

  /** Id v is counted as often as the cluster of `firsts[v - 1]` has sites. */
  lemma OccurrenceCounts(g0: Grid, h: Grid, k: int, firsts: seq<Pair>, occ: map<int, int>)
    requires NonNegative(g0) && LabellingOfIds(g0, h, k) && Representatives(g0, h, k, firsts)
    requires forall v :: 1 <= v <= k ==> v in occ && occ[v] == Occurrences(h, v)
    ensures forall v :: 1 <= v <= k ==> occ[v] == ClusterSize(g0, firsts[v - 1])
  {
    forall v | 1 <= v <= k
      ensures occ[v] == ClusterSize(g0, firsts[v - 1])
    {
      IdClassOfIds(g0, h, k, firsts, v);
    }
  }

  lemma IdOccursOfIds(g0: Grid, h: Grid, k: int, firsts: seq<Pair>, v: int)
    requires NonNegative(g0) && LabellingOfIds(g0, h, k) && Representatives(g0, h, k, firsts)
    ensures v != 0 && Occurrences(h, v) > 0 <==> 1 <= v <= k
  {
    ghost var ids := Ids(k);
    IdOccurs(g0, h, k, firsts, v);
  }

  lemma IdClassOfIds(g0: Grid, h: Grid, k: int, firsts: seq<Pair>, v: int)
    requires NonNegative(g0) && LabellingOfIds(g0, h, k) && Representatives(g0, h, k, firsts)
    requires 1 <= v <= k
    ensures Occurrences(h, v) == ClusterSize(g0, firsts[v - 1])
  {
    ghost var ids := Ids(k);
    IdClass(g0, h, k, firsts, v);
  }

  /** Adding up the counts of the labels 1..k gives the number of occupied sites. */
  lemma OccurrenceTotal(g0: Grid, h: Grid, k: int, occ: map<int, int>)
    requires NonNegative(g0) && ClusterLabelling(g0, h, k)
    requires forall v :: v in occ <==> 1 <= v <= k
    requires forall v :: v in occ ==> occ[v] == Occurrences(h, v)
    ensures Sum(occ.Keys, Lookup(occ)) == |OccupiedSites(g0)|
  {
    assert occ.Keys == Ids(k);
    SumAgree(occ.Keys, Lookup(occ), ClassSize(Sites(|h|), Value(h)));
    ClassSizes(Sites(|h|), Value(h), occ.Keys);
    LabelledSites(g0, h, k);
  }

  /** The sizes of the clusters of `g0` are the sizes of the clusters of its first sites. */
  lemma SizesOfClusters(g0: Grid, h: Grid, k: int, firsts: seq<Pair>, s: int)
    requires ClusterLabelling(g0, h, k) && FirstEncounter(g0, h, k, firsts)
    ensures (exists c :: Occupied(g0, c) && ClusterSize(g0, c) == s) <==>
            (exists v :: v in Ids(k) && ClusterSize(g0, firsts[v - 1]) == s)
  {
    if c :| Occupied(g0, c) && ClusterSize(g0, c) == s {
      var v := At(h, c);
      var f := firsts[v - 1];
      assert At(h, f) == At(h, c);
      SameCluster(g0, f, c);
      assert v in Ids(k) && ClusterSize(g0, firsts[v - 1]) == s;
    }
    if v :| v in Ids(k) && ClusterSize(g0, firsts[v - 1]) == s {
      assert Occupied(g0, firsts[v - 1]);
    }
  }

  /** The histogram's keys are the sizes of the clusters. */
  lemma HistogramKeys(g0: Grid, h: Grid, k: int, firsts: seq<Pair>, occ: map<int, int>, s: int)
    requires ClusterLabelling(g0, h, k) && FirstEncounter(g0, h, k, firsts) && IdSizes(g0, k, firsts, occ)
    ensures s in Histogram(occ) <==> exists c :: Occupied(g0, c) && ClusterSize(g0, c) == s
  {
    SizesOfClusters(g0, h, k, firsts, s);
    if s in occ.Values {
      var v := KeyOf(occ, s);
      assert v in Ids(k) && ClusterSize(g0, firsts[v - 1]) == s;
    }
    if v :| v in Ids(k) && ClusterSize(g0, firsts[v - 1]) == s {
      assert occ[v] == s;
      assert s in occ.Values;
    }
  }

  /** Each histogram entry counts the ids of the clusters of its size. */
  lemma HistogramCount(g0: Grid, h: Grid, k: int, firsts: seq<Pair>, occ: map<int, int>, s: int)
    requires forall m :: 0 <= m < |firsts| ==> Occupied(g0, firsts[m])
    requires IdSizes(g0, k, firsts, occ) && s in Histogram(occ)
    ensures Histogram(occ)[s] == |set v | v in Ids(k) && ClusterSize(g0, firsts[v - 1]) == s|
    ensures s >= 1
  {
    HistogramOfIds(k, occ, s);
    IdsOfSize(g0, k, firsts, occ, s);
    HistogramClasses(occ);
    SizeOfIdPositive(g0, k, firsts, occ, s);
  }

  /** The ids holding s in the occurrence map are the ids whose clusters have s sites. */
  lemma IdsOfSize(g0: Grid, k: int, firsts: seq<Pair>, occ: map<int, int>, s: int)
    requires IdSizes(g0, k, firsts, occ)
    ensures (set v | v in Ids(k) && occ[v] == s) == set v | v in Ids(k) && ClusterSize(g0, firsts[v - 1]) == s
  {
    var byIds := set v | v in Ids(k) && occ[v] == s;
    var bySize := set v | v in Ids(k) && ClusterSize(g0, firsts[v - 1]) == s;
    forall v
      ensures v in byIds <==> v in bySize
    {
      if v in Ids(k) {
        assert occ[v] == ClusterSize(g0, firsts[v - 1]);
      }
    }
    SameMembers(byIds, bySize);
  }

  /** Every value of the occurrence map is the size of a cluster, so at least 1. */
  lemma SizeOfIdPositive(g0: Grid, k: int, firsts: seq<Pair>, occ: map<int, int>, s: int)
    requires forall m :: 0 <= m < |firsts| ==> Occupied(g0, firsts[m])
    requires IdSizes(g0, k, firsts, occ) && s in occ.Values
    ensures s >= 1
  {
    var v := KeyOf(occ, s);
    assert 1 <= v <= k;
    ClusterSizePositive(g0, firsts[v - 1]);
  }

  /** Grouping the occurrence map of a labelled lattice gives its cluster-size distribution. */
  lemma HistogramIsDistribution(g0: Grid, h: Grid, k: int, firsts: seq<Pair>, occ: map<int, int>)
    requires ClusterLabelling(g0, h, k) && FirstEncounter(g0, h, k, firsts)
    requires IdSizes(g0, k, firsts, occ) && Sum(occ.Keys, Lookup(occ)) == |OccupiedSites(g0)|
    ensures Distribution(g0, k, firsts, Histogram(occ))
  {
    forall s
      ensures s in Histogram(occ) <==> exists c :: Occupied(g0, c) && ClusterSize(g0, c) == s
    {
      HistogramKeys(g0, h, k, firsts, occ, s);
    }
    forall s | s in Histogram(occ)
      ensures Histogram(occ)[s] == |set v | v in Ids(k) && ClusterSize(g0, firsts[v - 1]) == s|
      ensures s >= 1
    {
      HistogramCount(g0, h, k, firsts, occ, s);
    }
    HistogramTotals(k, occ);
  }

  /** The histogram's buckets are non-empty, count the k ids and weigh the summed occurrences. */
  lemma HistogramTotals(k: int, occ: map<int, int>)
    requires k >= 0
    requires forall v :: v in occ <==> 1 <= v <= k
    ensures forall s :: s in Histogram(occ) ==> Histogram(occ)[s] >= 1
    ensures Sum(Histogram(occ).Keys, Lookup(Histogram(occ))) == k
    ensures Sum(Histogram(occ).Keys, Weight(Histogram(occ))) == Sum(occ.Keys, Lookup(occ))
  {
    HistogramPositive(occ);
    HistogramCounts(occ);
    assert occ.Keys == Ids(k);
    assert |occ| == |occ.Keys|;
    IdCount(k);
    HistogramWeights(occ);
  }

  lemma {:induction false} IdCount(k: int)
    ensures |Ids(k)| == if k < 0 then 0 else k
    decreases k
  {
    if k > 0 {
      IdCount(k - 1);
    }
  }

  /**
   * The statistics half of `distributionOfClusters`, once the lattice has
   * been labelled: count the sites of every id, then group the counts.
   */
  method SizeDistribution(model: array2<int>, ghost g0: Grid, ghost k: int, ghost firsts: seq<Pair>)
    returns (occ: map<int, int>, dist: map<int, int>)
    requires model.Length0 == model.Length1 && NonNegative(g0)
    requires ClusterLabelling(g0, Snapshot(model), k) && FirstEncounter(g0, Snapshot(model), k, firsts)
    ensures IdSizes(g0, k, firsts, occ) && Distribution(g0, k, firsts, dist)
  {
    occ := CountOccurrences(model);
    OccurrencesAreSizes(g0, Snapshot(model), k, firsts, occ);
    dist := Histogram(occ);
    HistogramIsDistribution(g0, Snapshot(model), k, firsts, occ);
  }

  /** The stream `max` over the keys of the distribution, `orElse(0)`. */
  method MaxKey(keys: set<int>) returns (m: int)
    ensures keys == {} ==> m == 0
    ensures keys != {} ==> m in keys && forall s :: s in keys ==> s <= m
  {
    m := 0;
    var rest := keys;
    while rest != {}
      invariant rest <= keys
      invariant rest == keys ==> m == 0
      invariant rest != keys ==> m in keys && forall s :: s in keys && s !in rest ==> s <= m
      decreases |rest|
    {
      ghost var w := Pick(rest);
      var s :| s in rest;
      if rest == keys || s > m {
        m := s;
      }
      rest := rest - {s};
    }
  }

  /** The largest key of a cluster-size distribution is the size of the largest cluster. */
  lemma LargestCluster(g0: Grid, k: int, firsts: seq<Pair>, dist: map<int, int>, m: int)
    requires Distribution(g0, k, firsts, dist)
    requires dist.Keys == {} ==> m == 0
    requires dist.Keys != {} ==> m in dist.Keys && forall s :: s in dist.Keys ==> s <= m
    ensures m == 0 <==> OccupiedSites(g0) == {}
    ensures forall c :: Occupied(g0, c) ==> ClusterSize(g0, c) <= m
    ensures m != 0 ==> exists c :: Occupied(g0, c) && ClusterSize(g0, c) == m
  {
    if OccupiedSites(g0) != {} {
      var c := Pick(OccupiedSites(g0));
      assert ClusterSize(g0, c) in dist;
    }
    if dist.Keys != {} {
      var c :| Occupied(g0, c) && ClusterSize(g0, c) == m;
      ClusterSizePositive(g0, c);
      assert c in OccupiedSites(g0);
    }
    forall c | Occupied(g0, c)
      ensures ClusterSize(g0, c) <= m
    {
      assert ClusterSize(g0, c) in dist;
    }
  }
}
