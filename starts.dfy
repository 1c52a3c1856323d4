/**
 * How many labels the first Hoshen–Kopelman pass hands out: one for every
 * occupied site whose previous-row and previous-column neighbours are both
 * vacant (a "start"), and a bound on that number for an L x L lattice.
 */
module StartSites {
  import opened Lattice

  /** Site `c` receives a fresh label in the first pass. */
  ghost predicate Start(g: Grid, c: Pair) {
    Occupied(g, c) && !Occupied(g, PrevRow(c)) && !Occupied(g, PrevCol(c))
  }

  /** Starts in row `i` among columns 0 .. j-1. */
  ghost function RowStarts(g: Grid, i: int, j: nat): nat {
    if j == 0 then 0 else RowStarts(g, i, j - 1) + (if Start(g, Pair(i, j - 1)) then 1 else 0)
  }

  /** Starts in rows 0 .. n-1. */
  ghost function StartRows(g: Grid, n: nat): nat {
    if n == 0 then 0 else StartRows(g, n - 1) + RowStarts(g, n - 1, |g|)
  }

  /** Starts scanned before position (i, j) in raster order. */
  ghost function StartsBefore(g: Grid, i: nat, j: nat): nat {
    StartRows(g, i) + RowStarts(g, i, j)
  }

  /** The number of labels the first pass hands out on the whole lattice. */
  ghost function Starts(g: Grid): nat {
    StartRows(g, |g|)
  }

  lemma RowStartsMono(g: Grid, i: int, j: nat, j': nat)
    requires j <= j'
    ensures RowStarts(g, i, j) <= RowStarts(g, i, j')
    decreases j' - j
  {
    if j < j' {
      RowStartsMono(g, i, j, j' - 1);
    }
  }

  lemma StartRowsMono(g: Grid, n: nat, n': nat)
    requires n <= n'
    ensures StartRows(g, n) <= StartRows(g, n')
    decreases n' - n
  {
    if n < n' {
      StartRowsMono(g, n, n' - 1);
    }
  }

  /** Only the sites of the lattice can be starts, so a row holds no more of them than its L sites. */
  lemma RowStartsFull(g: Grid, i: int, j: nat)
    requires |g| <= j
    ensures RowStarts(g, i, j) == RowStarts(g, i, |g|)
    decreases j
  {
    if j > |g| {
      RowStartsFull(g, i, j - 1);
    }
  }

  /** Every scan position before the end has handed out at most Starts(g) labels. */
  lemma StartsBeforeBound(g: Grid, i: nat, j: nat)
    requires i < |g|
    ensures StartsBefore(g, i, j) <= Starts(g)
  {
    if j <= |g| {
      RowStartsMono(g, i, j, |g|);
    } else {
      RowStartsFull(g, i, j);
    }
    StartRowsMono(g, i + 1, |g|);
  }

  /**
   * A start's right-hand neighbour is not a start (its previous column is
   * occupied), so a row's first j sites hold at most (j + 1) / 2 starts.
   */
  lemma {:induction false} RowStartsHalf(g: Grid, i: int, j: nat)
    ensures RowStarts(g, i, j) <= (j + 1) / 2
  {
    if j >= 2 {
      RowStartsHalf(g, i, j - 2);
      assert Start(g, Pair(i, j - 2)) ==> !Start(g, Pair(i, j - 1)) by {
        assert PrevCol(Pair(i, j - 1)) == Pair(i, j - 2);
      }
    }
  }

  /**
   * Of two sites one above the other at most one is a start, so two
   * consecutive rows hold at most j starts in their first j columns.
   */
  lemma {:induction false} TwoRowStarts(g: Grid, i: int, j: nat)
    ensures RowStarts(g, i, j) + RowStarts(g, i + 1, j) <= j
  {
    if j > 0 {
      TwoRowStarts(g, i, j - 1);
      assert Start(g, Pair(i, j - 1)) ==> !Start(g, Pair(i + 1, j - 1)) by {
        assert PrevRow(Pair(i + 1, j - 1)) == Pair(i, j - 1);
      }
    }
  }

  /** n rows hold at most L starts per pair of rows and (L + 1) / 2 in an odd last row. */
  lemma {:induction false} StartRowsBound(g: Grid, n: nat)
    ensures StartRows(g, n) <= (n / 2) * |g| + (n % 2) * ((|g| + 1) / 2)
  {
    if n == 1 {
      RowStartsHalf(g, 0, |g|);
    } else if n >= 2 {
      StartRowsBound(g, n - 2);
      TwoRowStarts(g, n - 2, |g|);
      TwoMoreRows(n, |g|, (|g| + 1) / 2);
    }
  }

  /** Two more rows add one full row's worth L to the bound. */
  lemma TwoMoreRows(n: nat, L: nat, half: nat)
    requires n >= 2
    ensures (n / 2) * L + (n % 2) * half == ((n - 2) / 2) * L + ((n - 2) % 2) * half + L
  {
    var m := (n - 2) / 2;
    assert n / 2 == m + 1 && n % 2 == (n - 2) % 2;
    assert (m + 1) * L == m * L + L;
  }

  /** The arithmetic closing the bound: L rows hold (L * L + 1) / 2 starts at most. */
  lemma HalfSquare(L: nat)
    ensures (L / 2) * L + (L % 2) * ((L + 1) / 2) == (L * L + 1) / 2
  {
    var m := L / 2;
    if L % 2 == 0 {
      assert L == 2 * m;
      assert (L / 2) * L == 2 * (m * m) by {
        assert m * L == m * (2 * m);
      }
      assert L * L == 4 * (m * m) by {
        assert L * L == (2 * m) * (2 * m);
      }
    } else {
      assert L == 2 * m + 1;
      assert (L / 2) * L + (L + 1) / 2 == 2 * (m * m) + 2 * m + 1 by {
        assert m * L == m * (2 * m + 1);
      }
      assert L * L == 4 * (m * m) + 4 * m + 1 by {
        assert L * L == (2 * m + 1) * (2 * m + 1);
      }
    }
  }

  /** The first pass never hands out more than (L * L + 1) / 2 labels on an L x L lattice. */
  lemma StartsBound(g: Grid)
    ensures Starts(g) <= (|g| * |g| + 1) / 2
  {
    StartRowsBound(g, |g|);
    HalfSquare(|g|);
  }
}
