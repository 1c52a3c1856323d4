/**
 * The lattice of the earlier `Main`: four horizontal dominoes, each one row
 * lower and two columns further right than the one before, so that they
 * touch only at corners. Whatever labelling the Hoshen–Kopelman pass
 * produces on it, there are four clusters of two sites each.
 */
module MainExample {
  import opened Lattice
  import opened FiniteSums
  import opened HoshenKopelman
  import opened ClusterStatistics

  /** Row i < 4 is occupied in columns 2i and 2i + 1. */
  function MainLattice(): (g: Grid)
    ensures |g| == 8 && NonNegative(g)
    ensures forall c {:trigger Occupied(g, c)} :: Occupied(g, c) <==> 0 <= c.x < 4 && (c.y == 2 * c.x || c.y == 2 * c.x + 1)
  {
    seq(8, i => seq(8, j => if i < 4 && (j == 2 * i || j == 2 * i + 1) then 1 else 0))
  }

  /** It is the matrix written out in `Main`. */
  lemma MainLatticeLiteral()
    ensures MainLattice() == [
      [1, 1, 0, 0, 0, 0, 0, 0],
      [0, 0, 1, 1, 0, 0, 0, 0],
      [0, 0, 0, 0, 1, 1, 0, 0],
      [0, 0, 0, 0, 0, 0, 1, 1],
      [0, 0, 0, 0, 0, 0, 0, 0],
      [0, 0, 0, 0, 0, 0, 0, 0],
      [0, 0, 0, 0, 0, 0, 0, 0],
      [0, 0, 0, 0, 0, 0, 0, 0]]
  {
    var g := MainLattice();
    assert g[0] == [1, 1, 0, 0, 0, 0, 0, 0];
    assert g[1] == [0, 0, 1, 1, 0, 0, 0, 0];
    assert g[2] == [0, 0, 0, 0, 1, 1, 0, 0];
    assert g[3] == [0, 0, 0, 0, 0, 0, 1, 1];
    assert g[4] == g[5] == g[6] == g[7] == [0, 0, 0, 0, 0, 0, 0, 0];
  }

  /** Two occupied neighbours lie in the same row: the dominoes touch only at corners. */
  lemma NeighboursShareRow(a: Pair, b: Pair)
    requires Occupied(MainLattice(), a) && Occupied(MainLattice(), b) && Adjacent(a, b)
    ensures a.x == b.x
  {
  }

  /** A path of occupied sites never leaves its first row. */
  lemma {:induction false} PathRow(p: seq<Pair>, i: int)
    requires IsPath(MainLattice(), p) && 0 <= i < |p|
    ensures p[i].x == p[0].x
  {
    if i > 0 {
      PathRow(p, i - 1);
      NeighboursShareRow(p[i - 1], p[i]);
    }
  }

  /** Two occupied sites are connected exactly when they are in the same row. */
  lemma ConnectedRow(c: Pair, d: Pair)
    requires Occupied(MainLattice(), c) && Occupied(MainLattice(), d)
    ensures Connected(MainLattice(), c, d) <==> c.x == d.x
  {
    var g := MainLattice();
    if Connected(g, c, d) {
      var p :| IsPath(g, p) && p[0] == c && p[|p| - 1] == d;
      PathRow(p, |p| - 1);
    } else if c.x == d.x {
      if c == d {
        ConnectedRefl(g, c);
      } else {
        assert IsPath(g, [c, d]);
      }
    }
  }

  /** Every cluster is one domino: two sites. */
  lemma DominoSize(c: Pair)
    requires Occupied(MainLattice(), c)
    ensures ClusterSize(MainLattice(), c) == 2
  {
    var g := MainLattice();
    var a, b := Pair(c.x, 2 * c.x), Pair(c.x, 2 * c.x + 1);
    forall d | d in Sites(|g|)
      ensures Connected(g, c, d) <==> d == a || d == b
    {
      if Occupied(g, d) {
        ConnectedRow(c, d);
      } else if Connected(g, c, d) {
        ConnectedOccupied(g, c, d);
      }
    }
    assert Cluster(g, c) == {a, b};
  }

  /** The first site of the domino in row r. */
  function DominoStart(r: int): Pair {
    Pair(r, 2 * r)
  }

  /** The ids the labelling gives the four dominoes, top to bottom. */
  function DominoIds(h: Grid): (a: seq<int>)
    ensures |a| == 4
  {
    seq(4, r => At(h, DominoStart(r)))
  }

  /** Different dominoes carry different ids in 1 .. k. */
  lemma DistinctIds(h: Grid, k: int, r: int, r': int)
    requires ClusterLabelling(MainLattice(), h, k)
    requires 0 <= r < 4 && 0 <= r' < 4 && r != r'
    ensures DominoIds(h)[r] != DominoIds(h)[r']
    ensures 1 <= DominoIds(h)[r] <= k
  {
    ConnectedRow(DominoStart(r), DominoStart(r'));
  }

  /** Every id is the id of one of the dominoes. */
  lemma IdOfDomino(h: Grid, k: int, firsts: seq<Pair>, v: int)
    requires ClusterLabelling(MainLattice(), h, k) && FirstEncounter(MainLattice(), h, k, firsts)
    requires 1 <= v <= k
    ensures v in DominoIds(h)
  {
    var f := firsts[v - 1];
    ConnectedRow(f, DominoStart(f.x));
    assert v == DominoIds(h)[f.x];
  }

  /** A sequence without repetitions has as many distinct elements as it is long. */
  lemma {:induction false} DistinctElements(a: seq<int>)
    requires forall i, j :: 0 <= i < j < |a| ==> a[i] != a[j]
    ensures |set x | x in a| == |a|
  {
    if a != [] {
      var rest := a[1..];
      DistinctElements(rest);
      assert (set x | x in a) == (set x | x in rest) + {a[0]};
      assert a[0] !in rest;
    }
  }

  /** The domino ids are distinct ids in 1 .. k. */
  lemma DominoIdsDistinct(h: Grid, k: int)
    requires ClusterLabelling(MainLattice(), h, k)
    ensures forall i, j :: 0 <= i < j < 4 ==> DominoIds(h)[i] != DominoIds(h)[j]
    ensures forall i :: 0 <= i < 4 ==> DominoIds(h)[i] in Ids(k)
  {
    forall i, j | 0 <= i < 4 && 0 <= j < 4 && i != j
      ensures DominoIds(h)[i] != DominoIds(h)[j] && DominoIds(h)[i] in Ids(k)
    {
      DistinctIds(h, k, i, j);
    }
  }

  /** Every id is a domino id. */
  lemma DominoIdsCover(h: Grid, k: int, firsts: seq<Pair>)
    requires ClusterLabelling(MainLattice(), h, k) && FirstEncounter(MainLattice(), h, k, firsts)
    ensures forall v :: v in Ids(k) ==> v in DominoIds(h)
  {
    forall v | v in Ids(k)
      ensures v in DominoIds(h)
    {
      IdOfDomino(h, k, firsts, v);
    }
  }

  /** Distinct values that are exactly the ids 1 .. k number k. */
  lemma CountIds(k: int, a: seq<int>)
    requires a != []
    requires forall i, j :: 0 <= i < j < |a| ==> a[i] != a[j]
    requires forall i :: 0 <= i < |a| ==> a[i] in Ids(k)
    requires forall v :: v in Ids(k) ==> v in a
    ensures k == |a|
  {
    DistinctElements(a);
    assert (set x | x in a) == Ids(k);
    IdCount(k);
  }

  /** The four dominoes account for all the ids, so there are four. */
  lemma FourIds(h: Grid, k: int, firsts: seq<Pair>)
    requires ClusterLabelling(MainLattice(), h, k) && FirstEncounter(MainLattice(), h, k, firsts)
    ensures k == 4
  {
    DominoIdsDistinct(h, k);
    DominoIdsCover(h, k, firsts);
    CountIds(k, DominoIds(h));
  }

  /** Four ids, each a domino of two sites: the occurrence map gives every id the count 2. */
  lemma MainLatticeOccurrences(k: int, firsts: seq<Pair>, occ: map<int, int>)
    requires k == 4 && IdSizes(MainLattice(), k, firsts, occ)
    requires forall m :: 0 <= m < |firsts| ==> Occupied(MainLattice(), firsts[m])
    ensures occ == map[1 := 2, 2 := 2, 3 := 2, 4 := 2]
  {
    var expected := map[1 := 2, 2 := 2, 3 := 2, 4 := 2];
    forall v | 1 <= v <= 4
      ensures occ[v] == 2
    {
      DominoSize(firsts[v - 1]);
    }
    assert forall v :: v in expected <==> 1 <= v <= 4;
    assert occ.Keys == expected.Keys;
  }

  /** Every cluster has two sites, so 2 is the only size in the distribution. */
  lemma MainLatticeSizeKeys(k: int, firsts: seq<Pair>, dist: map<int, int>)
    requires Distribution(MainLattice(), k, firsts, dist)
    ensures dist.Keys == {2}
  {
    var g := MainLattice();
    forall s | s in dist
      ensures s == 2
    {
      var c :| Occupied(g, c) && ClusterSize(g, c) == s;
      DominoSize(c);
    }
    DominoSize(Pair(0, 0));
    assert 2 in dist;
  }

  /** All four ids have clusters of two sites, so size 2 counts four clusters. */
  lemma MainLatticeSizeCount(k: int, firsts: seq<Pair>, dist: map<int, int>)
    requires k == 4 && Distribution(MainLattice(), k, firsts, dist)
    requires forall m :: 0 <= m < |firsts| ==> Occupied(MainLattice(), firsts[m])
    requires 2 in dist
    ensures dist[2] == 4
  {
    IdsAllDominoes(firsts);
    IdCount(4);
  }

  /** Every one of the four ids names a cluster of two sites. */
  lemma IdsAllDominoes(firsts: seq<Pair>)
    requires |firsts| == 4
    requires forall m :: 0 <= m < |firsts| ==> Occupied(MainLattice(), firsts[m])
    ensures (set v | v in Ids(4) && ClusterSize(MainLattice(), firsts[v - 1]) == 2) == Ids(4)
  {
    var g := MainLattice();
    forall v | v in Ids(4)
      ensures ClusterSize(g, firsts[v - 1]) == 2
    {
      DominoSize(firsts[v - 1]);
    }
  }

  /** A map with the single key s is determined by its value there. */
  lemma MapOfOne(m: map<int, int>, s: int, n: int)
    requires m.Keys == {s} && m[s] == n
    ensures m == map[s := n]
  {
  }

  /** Four ids, each a domino of two sites: the distribution is {2: 4}. */
  lemma MainLatticeSizes(k: int, firsts: seq<Pair>, dist: map<int, int>)
    requires k == 4 && Distribution(MainLattice(), k, firsts, dist)
    requires forall m :: 0 <= m < |firsts| ==> Occupied(MainLattice(), firsts[m])
    ensures dist == map[2 := 4]
  {
    MainLatticeSizeKeys(k, firsts, dist);
    MainLatticeSizeCount(k, firsts, dist);
    MapOfOne(dist, 2, 4);
  }

  /**
   * On the lattice of `Main` the occurrence map is {1: 2, 2: 2, 3: 2, 4: 2}
   * and the distribution is {2: 4}: four clusters of size two.
   */
  lemma MainLatticeDistribution(h: Grid, k: int, firsts: seq<Pair>, occ: map<int, int>, dist: map<int, int>)
    requires ClusterLabelling(MainLattice(), h, k) && FirstEncounter(MainLattice(), h, k, firsts)
    requires IdSizes(MainLattice(), k, firsts, occ) && Distribution(MainLattice(), k, firsts, dist)
    ensures k == 4
    ensures occ == map[1 := 2, 2 := 2, 3 := 2, 4 := 2]
    ensures dist == map[2 := 4]
  {
    FourIds(h, k, firsts);
    MainLatticeOccurrences(k, firsts, occ);
    MainLatticeSizes(k, firsts, dist);
  }
}
