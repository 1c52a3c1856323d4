/**
 * The size of the two label arrays of the Hoshen–Kopelman labelling. The
 * source allocates `model.length * model.length / 2` slots for each; the
 * first pass needs one slot per start plus slot 0, and a checkerboard
 * lattice, where every occupied site is a start, needs more than that.
 */
module LabelCapacity {
  import opened Lattice
  import opened StartSites

  /** `model.length * model.length / 2`, as allocated at both label arrays. */
  function JavaCapacity(L: nat): nat {
    L * L / 2
  }

  /** Slot 0 and one slot for each of the at most (L * L + 1) / 2 starts. */
  function SafeCapacity(L: nat): nat {
    (L * L + 1) / 2 + 1
  }

  /** The L x L lattice occupied where the row and column have the same parity. */
  function Checkerboard(L: nat): (g: Grid)
    ensures |g| == L && Binary(g)
    ensures forall c {:trigger At(g, c)} :: InGrid(g, c) ==> At(g, c) == if (c.x + c.y) % 2 == 0 then 1 else 0
  {
    seq(L, i => seq(L, j => if (i + j) % 2 == 0 then 1 else 0))
  }

  /** With the safe size, the labelling of every lattice fits its label arrays. */
  lemma SafeCapacitySuffices(g: Grid)
    ensures Starts(g) < SafeCapacity(|g|)
  {
    StartsBound(g);
  }

  /** `g` is occupied exactly where the row and column have the same parity. */
  ghost predicate Checkered(g: Grid) {
    Square(g) && forall c {:trigger At(g, c)} :: InGrid(g, c) ==> At(g, c) == if (c.x + c.y) % 2 == 0 then 1 else 0
  }

  /** On a checkerboard every occupied site is a start. */
  lemma CheckerboardStart(g: Grid, c: Pair)
    requires Checkered(g) && InGrid(g, c)
    ensures Start(g, c) <==> (c.x + c.y) % 2 == 0
  {
    if (c.x + c.y) % 2 == 0 {
      assert At(g, PrevRow(c)) == 0;
      assert At(g, PrevCol(c)) == 0;
    }
  }

  lemma {:induction false} CheckerboardRow(g: Grid, i: nat, j: nat)
    requires Checkered(g) && i < |g| && j <= |g|
    ensures RowStarts(g, i, j) == if i % 2 == 0 then (j + 1) / 2 else j / 2
  {
    if j > 0 {
      CheckerboardRow(g, i, j - 1);
      CheckerboardStart(g, Pair(i, j - 1));
      assert RowStarts(g, i, j) == RowStarts(g, i, j - 1) + if (i + j - 1) % 2 == 0 then 1 else 0;
      RowArithmetic(i, j);
    }
  }

  lemma RowArithmetic(i: nat, j: nat)
    requires j > 0
    ensures (if i % 2 == 0 then (j + 1) / 2 else j / 2) ==
            (if i % 2 == 0 then j / 2 else (j - 1) / 2) + if (i + j - 1) % 2 == 0 then 1 else 0
  {
  }

  lemma {:induction false} CheckerboardRows(g: Grid, n: nat)
    requires Checkered(g) && n <= |g|
    ensures StartRows(g, n) == (n / 2) * |g| + (n % 2) * ((|g| + 1) / 2)
  {
    if n == 1 {
      CheckerboardRow(g, 0, |g|);
      assert StartRows(g, 1) == RowStarts(g, 0, |g|);
      assert (1 / 2) * |g| + (1 % 2) * ((|g| + 1) / 2) == (|g| + 1) / 2;
    } else if n >= 2 {
      CheckerboardRows(g, n - 2);
      CheckerboardPair(g, n - 2);
      RowsStep(g, n);
    }
  }

  /** Two more rows holding L starts together keep the row count on the checkerboard's formula. */
  lemma RowsStep(g: Grid, n: nat)
    requires n >= 2
    requires StartRows(g, n - 2) == ((n - 2) / 2) * |g| + ((n - 2) % 2) * ((|g| + 1) / 2)
    requires RowStarts(g, n - 2, |g|) + RowStarts(g, n - 1, |g|) == |g|
    ensures StartRows(g, n) == (n / 2) * |g| + (n % 2) * ((|g| + 1) / 2)
  {
    assert StartRows(g, n) == StartRows(g, n - 2) + RowStarts(g, n - 2, |g|) + RowStarts(g, n - 1, |g|);
    TwoMoreRows(n, |g|, (|g| + 1) / 2);
  }

  /** Two consecutive rows of a checkerboard hold L starts. */
  lemma CheckerboardPair(g: Grid, i: nat)
    requires Checkered(g) && i + 1 < |g|
    ensures RowStarts(g, i, |g|) + RowStarts(g, i + 1, |g|) == |g|
  {
    CheckerboardRow(g, i, |g|);
    CheckerboardRow(g, i + 1, |g|);
    HalvesOfRow(i, |g|);
  }

  /** One of two consecutive rows holds the larger half of L, the other the smaller. */
  lemma HalvesOfRow(i: nat, L: nat)
    ensures (if i % 2 == 0 then (L + 1) / 2 else L / 2) + (if (i + 1) % 2 == 0 then (L + 1) / 2 else L / 2) == L
  {
  }

  /**
   * The checkerboard reaches the bound: it has (L * L + 1) / 2 starts, so
   * no smaller label array than the safe size serves every L x L lattice.
   */
  lemma CheckerboardStarts(L: nat)
    ensures Starts(Checkerboard(L)) == (L * L + 1) / 2 == SafeCapacity(L) - 1
  {
    CheckerboardRows(Checkerboard(L), L);
    HalfSquare(L);
  }

  /**
   * For every size L the source's label array is too small for the
   * checkerboard: its first pass stores label (L * L + 1) / 2 at an index
   * the array of L * L / 2 slots does not have (for L = 2, the diagonal pair
   * [[1, 0], [0, 1]]; for L <= 1, every lattice, since the array is empty).
   */
  lemma CheckerboardOverflows(L: nat)
    ensures Binary(Checkerboard(L)) && Starts(Checkerboard(L)) >= JavaCapacity(L)
  {
    CheckerboardStarts(L);
  }

  /** The 2 x 2 checkerboard is the diagonal pair. */
  lemma DiagonalPair()
    ensures Checkerboard(2) == [[1, 0], [0, 1]] && Starts(Checkerboard(2)) == 2 && JavaCapacity(2) == 2
  {
    CheckerboardStarts(2);
    assert Checkerboard(2)[0] == [1, 0] && Checkerboard(2)[1] == [0, 1];
  }
}
