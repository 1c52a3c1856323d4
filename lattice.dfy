/**
 * Square lattices of site states (the Java `int[][] model`), the cells that
 * index them, and 4-connected paths of occupied sites.
 */
module Lattice {

  /** The source's `record Pair(int x, int y)`: row `x`, column `y`. */
  datatype Pair = Pair(x: int, y: int)

  /** Value view of an L x L lattice: `g[x][y]` is the state of site (x, y). */
  type Grid = seq<seq<int>>

  ghost predicate Square(g: Grid) {
    forall i :: 0 <= i < |g| ==> |g[i]| == |g|
  }

  predicate InGrid(g: Grid, c: Pair) {
    0 <= c.x < |g| && 0 <= c.y < |g|
  }

  /** State of site `c`; a site off the lattice reads as vacant (0), as the source's bounds checks do. */
  function At(g: Grid, c: Pair): int {
    if 0 <= c.x < |g| && 0 <= c.y < |g[c.x]| then g[c.x][c.y] else 0
  }

  /** `g` with site `c` set to `v` (no change when `c` is off the lattice). */
  function Put(g: Grid, c: Pair, v: int): (h: Grid)
    ensures |h| == |g| && forall i :: 0 <= i < |g| ==> |h[i]| == |g[i]|
    ensures forall d :: At(h, d) == if d == c && 0 <= c.x < |g| && 0 <= c.y < |g[c.x]| then v else At(g, d)
  {
    if 0 <= c.x < |g| && 0 <= c.y < |g[c.x]| then g[c.x := g[c.x][c.y := v]] else g
  }

  // The four edge neighbours of a site.
  function PrevRow(c: Pair): Pair { Pair(c.x - 1, c.y) }
  function NextRow(c: Pair): Pair { Pair(c.x + 1, c.y) }
  function PrevCol(c: Pair): Pair { Pair(c.x, c.y - 1) }
  function NextCol(c: Pair): Pair { Pair(c.x, c.y + 1) }

  predicate Adjacent(a: Pair, b: Pair) {
    b == PrevRow(a) || b == NextRow(a) || b == PrevCol(a) || b == NextCol(a)
  }

  /** Raster (row-major) order, the order in which the labelling scans the lattice. */
  predicate Before(a: Pair, b: Pair) {
    a.x < b.x || (a.x == b.x && a.y < b.y)
  }

  ghost predicate Occupied(g: Grid, c: Pair) {
    InGrid(g, c) && At(g, c) > 0
  }

  /** Every site holds 0 (vacant) or 1 (occupied), as a generated lattice does. */
  ghost predicate Binary(g: Grid) {
    Square(g) && forall c :: InGrid(g, c) ==> At(g, c) == 0 || At(g, c) == 1
  }

  ghost predicate NonNegative(g: Grid) {
    Square(g) && forall c :: InGrid(g, c) ==> At(g, c) >= 0
  }

  /** A chain of occupied sites, each edge-adjacent to the next. */
  ghost predicate IsPath(g: Grid, p: seq<Pair>) {
    |p| > 0 &&
    (forall k :: 0 <= k < |p| ==> Occupied(g, p[k])) &&
    (forall k :: 0 <= k < |p| - 1 ==> Adjacent(p[k], p[k + 1]))
  }

  /** Sites `a` and `b` lie in the same 4-connected cluster of occupied sites. */
  ghost predicate Connected(g: Grid, a: Pair, b: Pair) {
    exists p :: IsPath(g, p) && p[0] == a && p[|p| - 1] == b
  }

  /** The view of a two-dimensional array as a grid of rows. */
  ghost function Snapshot(a: array2<int>): (g: Grid)
    reads a
    ensures |g| == a.Length0
    ensures forall i :: 0 <= i < a.Length0 ==> |g[i]| == a.Length1
    ensures forall i, j :: 0 <= i < a.Length0 && 0 <= j < a.Length1 ==> g[i][j] == a[i, j]
  {
    seq(a.Length0, i requires 0 <= i < a.Length0 reads a =>
      seq(a.Length1, j requires 0 <= j < a.Length1 reads a => a[i, j]))
  }

  lemma SnapshotAt(a: array2<int>, c: Pair)
    requires 0 <= c.x < a.Length0 && 0 <= c.y < a.Length1
    ensures At(Snapshot(a), c) == a[c.x, c.y]
  {
  }

  /** Writes `v` into site `c` of the array. */
  method Write(a: array2<int>, c: Pair, v: int)
    requires 0 <= c.x < a.Length0 && 0 <= c.y < a.Length1
    modifies a
    ensures Snapshot(a) == Put(old(Snapshot(a)), c, v)
  {
    ghost var g := Snapshot(a);
    a[c.x, c.y] := v;
    ghost var h := Snapshot(a);
    assert forall i :: 0 <= i < |h| ==> h[i] == Put(g, c, v)[i];
  }

  lemma AdjacentSymmetric(a: Pair, b: Pair)
    ensures Adjacent(a, b) <==> Adjacent(b, a)
  {
  }

  lemma ConnectedRefl(g: Grid, a: Pair)
    requires Occupied(g, a)
    ensures Connected(g, a, a)
  {
    assert IsPath(g, [a]);
  }

  /** A cluster grows by any occupied site edge-adjacent to one of its sites. */
  lemma ConnectedStep(g: Grid, a: Pair, b: Pair, c: Pair)
    requires Connected(g, a, b) && Occupied(g, c) && Adjacent(b, c)
    ensures Connected(g, a, c)
  {
    var p :| IsPath(g, p) && p[0] == a && p[|p| - 1] == b;
    var p' := p + [c];
    assert IsPath(g, p');
  }

  lemma ConnectedSym(g: Grid, a: Pair, b: Pair)
    requires Connected(g, a, b)
    ensures Connected(g, b, a)
  {
    var p :| IsPath(g, p) && p[0] == a && p[|p| - 1] == b;
    var r := seq(|p|, k requires 0 <= k < |p| => p[|p| - 1 - k]);
    forall k | 0 <= k < |r| - 1
      ensures Adjacent(r[k], r[k + 1])
    {
      AdjacentSymmetric(p[|p| - 2 - k], p[|p| - 1 - k]);
    }
    assert IsPath(g, r);
  }

  lemma ConnectedTrans(g: Grid, a: Pair, b: Pair, c: Pair)
    requires Connected(g, a, b) && Connected(g, b, c)
    ensures Connected(g, a, c)
  {
    var p :| IsPath(g, p) && p[0] == a && p[|p| - 1] == b;
    var q :| IsPath(g, q) && q[0] == b && q[|q| - 1] == c;
    var pq := p + q[1..];
    forall k | 0 <= k < |pq| - 1
      ensures Adjacent(pq[k], pq[k + 1])
    {
      if k < |p| - 1 {
      } else {
        assert pq[k] == q[k - |p| + 1] && pq[k + 1] == q[k - |p| + 2];
      }
    }
    assert IsPath(g, pq);
  }
}
