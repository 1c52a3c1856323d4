/**
 * The Hoshen–Kopelman cluster labelling of `HosenKopelmanAlgorithm`: a
 * raster scan that gives every occupied site a provisional label, joining
 * label classes in a union–find forest where a site touches two of them,
 * followed by a second scan that renames every class to a sequential id in
 * the order in which the classes are first met.
 */
module HoshenKopelman {
  import opened Lattice
  import opened Labels
  import opened StartSites

  // ---------------------------------------------------------------------------
  // What the labelling achieves
  // ---------------------------------------------------------------------------

  /**
   * `h` labels the clusters of `g0` with the ids 1 .. k: vacant sites keep
   * their value, and two occupied sites share an id exactly when they are
   * connected.
   */
  ghost predicate ClusterLabelling(g0: Grid, h: Grid, k: int) {
    |h| == |g0| &&
    (forall c :: InGrid(g0, c) && !Occupied(g0, c) ==> At(h, c) == At(g0, c)) &&
    (forall c :: Occupied(g0, c) ==> 1 <= At(h, c) <= k) &&
    (forall c, d :: Occupied(g0, c) && Occupied(g0, d) ==> (At(h, c) == At(h, d) <==> Connected(g0, c, d)))
  }

  /**
   * The ids are sequential in order of first appearance: `firsts[m]` is the
   * first site in raster order that carries id m + 1.
   */
  ghost predicate FirstEncounter(g0: Grid, h: Grid, k: int, firsts: seq<Pair>) {
    |firsts| == k &&
    (forall m :: 0 <= m < |firsts| ==> Occupied(g0, firsts[m]) && At(h, firsts[m]) == m + 1) &&
    (forall m :: 0 < m < |firsts| ==> Before(firsts[m - 1], firsts[m])) &&
    (forall c :: Occupied(g0, c) && 1 <= At(h, c) <= |firsts| ==>
      firsts[At(h, c) - 1] == c || Before(firsts[At(h, c) - 1], c))
  }

  // ---------------------------------------------------------------------------
  // First pass: provisional labels
  // ---------------------------------------------------------------------------

  /** Labels 1 .. count have roots among themselves, each its own root. */
  ghost predicate RootsOk(root: seq<int>, count: int) {
    0 <= count < |root| &&
    forall k :: 1 <= k <= count ==> 1 <= root[k] <= count && root[root[k]] == root[k]
  }

  /**
   * The scanned occupied site `c` holds a label whose class agrees with
   * those of its occupied previous-row and previous-column neighbours and
   * whose class representative it is connected to.
   */
  ghost predicate Done(g0: Grid, h: Grid, count: int, root: seq<int>, rep: seq<Pair>, c: Pair)
    requires RootsOk(root, count) && |rep| == |root|
  {
    1 <= At(h, c) <= count &&
    (Occupied(g0, PrevRow(c)) ==> 1 <= At(h, PrevRow(c)) <= count && root[At(h, c)] == root[At(h, PrevRow(c))]) &&
    (Occupied(g0, PrevCol(c)) ==> 1 <= At(h, PrevCol(c)) <= count && root[At(h, c)] == root[At(h, PrevCol(c))]) &&
    Connected(g0, c, rep[root[At(h, c)]])
  }

  /**
   * The first pass has scanned every site before (i, j): each scanned
   * occupied site is Done, a scanned vacant site and every unscanned site
   * still hold their input value, and `count` labels have been handed out.
   */
  ghost predicate FirstPass(g0: Grid, h: Grid, count: int, root: seq<int>, rep: seq<Pair>, i: int, j: int) {
    0 <= i && 0 <= j && |h| == |g0| && Square(h) && |rep| == |root| && RootsOk(root, count) &&
    (forall c {:trigger At(h, c)} :: InGrid(g0, c) && (c.x > i || (c.x == i && c.y >= j)) ==> At(h, c) == At(g0, c)) &&
    (forall c {:trigger Before(c, Pair(i, j))} :: Before(c, Pair(i, j)) && InGrid(g0, c) ==>
      if Occupied(g0, c) then Done(g0, h, count, root, rep, c) else At(h, c) == At(g0, c)) &&
    count == StartsBefore(g0, i, j)
  }

  /** The roots recorded by a forest are labels and their own roots. */
  lemma ForestRoots(l: seq<int>, root: seq<int>, dist: seq<nat>)
    requires Forest(l, root, dist)
    ensures forall k :: 1 <= k <= l[0] ==> 1 <= root[k] <= l[0] && root[root[k]] == root[k]
  {
    forall k | 1 <= k <= l[0]
      ensures 1 <= root[k] <= l[0] && root[root[k]] == root[k]
    {
      assert l[root[k]] == root[k];
    }
  }

  lemma InitFirstPass(g0: Grid, root: seq<int>, rep: seq<Pair>)
    requires Square(g0) && |rep| == |root| >= 1
    ensures FirstPass(g0, g0, 0, root, rep, 0, 0)
  {
  }

  /** What the first pass records about one scanned site. */
  lemma ScannedAt(g0: Grid, h: Grid, count: int, root: seq<int>, rep: seq<Pair>, i: int, j: int, c: Pair)
    requires FirstPass(g0, h, count, root, rep, i, j) && Before(c, Pair(i, j)) && InGrid(g0, c)
    ensures if Occupied(g0, c) then Done(g0, h, count, root, rep, c) else At(h, c) == At(g0, c)
  {
  }

  /**
   * A scanned neighbour reads as nonzero exactly when it is occupied, and
   * then as a label; off the lattice it reads as 0.
   */
  lemma ScannedValue(g0: Grid, h: Grid, count: int, root: seq<int>, rep: seq<Pair>, i: int, j: int, c: Pair)
    requires NonNegative(g0) && FirstPass(g0, h, count, root, rep, i, j) && Before(c, Pair(i, j))
    ensures At(h, c) != 0 <==> Occupied(g0, c)
    ensures Occupied(g0, c) ==> 1 <= At(h, c) <= count
  {
    if InGrid(g0, c) {
      ScannedAt(g0, h, count, root, rep, i, j, c);
    }
  }

  /** A site the scan has not reached still holds its input value. */
  lemma UnscannedValue(g0: Grid, h: Grid, count: int, root: seq<int>, rep: seq<Pair>, i: int, j: int)
    requires FirstPass(g0, h, count, root, rep, i, j) && 0 <= j < |g0| && i < |g0|
    ensures At(h, Pair(i, j)) == At(g0, Pair(i, j))
  {
  }

  /** Setting another site leaves a Done site Done. */
  lemma DonePut(g0: Grid, h: Grid, count: int, root: seq<int>, rep: seq<Pair>, c: Pair, cur: Pair, v: int)
    requires RootsOk(root, count) && |rep| == |root| && Done(g0, h, count, root, rep, c)
    requires c != cur && PrevRow(c) != cur && PrevCol(c) != cur
    ensures Done(g0, Put(h, cur, v), count, root, rep, c)
  {
  }

  /** A vacant site is passed over. */
  lemma VacantStep(g0: Grid, h: Grid, count: int, root: seq<int>, rep: seq<Pair>, i: int, j: int)
    requires NonNegative(g0) && 0 <= i < |g0| && 0 <= j < |g0|
    requires FirstPass(g0, h, count, root, rep, i, j) && !Occupied(g0, Pair(i, j))
    ensures FirstPass(g0, h, count, root, rep, i, j + 1)
  {
    assert !Start(g0, Pair(i, j));
    forall c | Before(c, Pair(i, j + 1)) && InGrid(g0, c)
      ensures if Occupied(g0, c) then Done(g0, h, count, root, rep, c) else At(h, c) == At(g0, c)
    {
      if c != Pair(i, j) {
        ScannedAt(g0, h, count, root, rep, i, j, c);
      }
    }
  }

  /** A start receives the next label as a class of its own, represented by itself. */
  lemma NewLabelStep(g0: Grid, h: Grid, count: int, root: seq<int>, root': seq<int>, rep: seq<Pair>, i: int, j: int)
    requires NonNegative(g0) && 0 <= i < |g0| && 0 <= j < |g0|
    requires FirstPass(g0, h, count, root, rep, i, j) && Start(g0, Pair(i, j))
    requires count + 1 < |root| && root' == root[count + 1 := count + 1]
    ensures FirstPass(g0, Put(h, Pair(i, j), count + 1), count + 1, root', rep[count + 1 := Pair(i, j)], i, j + 1)
  {
    var cur, n := Pair(i, j), count + 1;
    var h', rep' := Put(h, cur, n), rep[n := cur];
    assert RootsOk(root', n);
    forall c | Before(c, Pair(i, j + 1)) && InGrid(g0, c)
      ensures if Occupied(g0, c) then Done(g0, h', n, root', rep', c) else At(h', c) == At(g0, c)
    {
      NewLabelSite(g0, h, count, root, root', rep, i, j, c);
    }
  }

  /** One scanned site after a start receives the next label. */
  lemma NewLabelSite(g0: Grid, h: Grid, count: int, root: seq<int>, root': seq<int>, rep: seq<Pair>, i: int, j: int,
                     c: Pair)
    requires NonNegative(g0) && 0 <= i < |g0| && 0 <= j < |g0|
    requires FirstPass(g0, h, count, root, rep, i, j) && Start(g0, Pair(i, j))
    requires count + 1 < |root| && root' == root[count + 1 := count + 1]
    requires Before(c, Pair(i, j + 1)) && InGrid(g0, c)
    ensures RootsOk(root', count + 1)
    ensures var h', rep' := Put(h, Pair(i, j), count + 1), rep[count + 1 := Pair(i, j)];
      if Occupied(g0, c) then Done(g0, h', count + 1, root', rep', c) else At(h', c) == At(g0, c)
  {
    var cur, n := Pair(i, j), count + 1;
    assert RootsOk(root', n);
    if c == cur {
      ConnectedRefl(g0, cur);
    } else {
      ScannedAt(g0, h, count, root, rep, i, j, c);
      if Occupied(g0, c) {
        DonePut(g0, h, count, root, rep, c, cur, n);
        DoneGrow(g0, Put(h, cur, n), count, root, root', rep, rep[n := cur], c);
      }
    }
  }

  /** A new label whose class is its own leaves a Done site Done. */
  lemma DoneGrow(g0: Grid, h: Grid, count: int, root: seq<int>, root': seq<int>, rep: seq<Pair>, rep': seq<Pair>,
                 c: Pair)
    requires RootsOk(root, count) && RootsOk(root', count + 1) && |rep| == |root| == |root'| == |rep'|
    requires forall k :: 0 <= k <= count ==> root'[k] == root[k] && rep'[k] == rep[k]
    requires Done(g0, h, count, root, rep, c)
    ensures Done(g0, h, count + 1, root', rep', c)
  {
  }

  /**
   * A site with exactly one occupied scanned neighbour `nb` copies its
   * label (Java's `Math.max(up, left)`, the other one being 0).
   */
  lemma JoinStep(g0: Grid, h: Grid, count: int, root: seq<int>, rep: seq<Pair>, i: int, j: int, nb: Pair)
    requires NonNegative(g0) && 0 <= i < |g0| && 0 <= j < |g0|
    requires FirstPass(g0, h, count, root, rep, i, j) && Occupied(g0, Pair(i, j))
    requires nb == PrevRow(Pair(i, j)) || nb == PrevCol(Pair(i, j))
    requires Occupied(g0, nb) && !(Occupied(g0, PrevRow(Pair(i, j))) && Occupied(g0, PrevCol(Pair(i, j))))
    ensures FirstPass(g0, Put(h, Pair(i, j), At(h, nb)), count, root, rep, i, j + 1)
  {
    var cur := Pair(i, j);
    var h' := Put(h, cur, At(h, nb));
    assert !Start(g0, cur);
    assert StartsBefore(g0, i, j + 1) == count;
    UnscannedPut(g0, h, count, root, rep, i, j, At(h, nb));
    forall c | Before(c, Pair(i, j + 1)) && InGrid(g0, c)
      ensures if Occupied(g0, c) then Done(g0, h', count, root, rep, c) else At(h', c) == At(g0, c)
    {
      if c == cur {
        JoinCur(g0, h, count, root, rep, i, j, nb);
      } else {
        KeptSite(g0, h, count, root, rep, i, j, c, At(h, nb));
      }
    }
  }

  /** Writing the current site leaves the sites after it unscanned, and the lattice square. */
  lemma UnscannedPut(g0: Grid, h: Grid, count: int, root: seq<int>, rep: seq<Pair>, i: int, j: int, v: int)
    requires FirstPass(g0, h, count, root, rep, i, j)
    ensures |Put(h, Pair(i, j), v)| == |g0| && Square(Put(h, Pair(i, j), v))
    ensures forall c {:trigger At(Put(h, Pair(i, j), v), c)} :: InGrid(g0, c) && (c.x > i || (c.x == i && c.y >= j + 1)) ==>
      At(Put(h, Pair(i, j), v), c) == At(g0, c)
  {
  }

  /** Writing the current site leaves every site scanned before it as it was. */
  lemma KeptSite(g0: Grid, h: Grid, count: int, root: seq<int>, rep: seq<Pair>, i: int, j: int, c: Pair, v: int)
    requires FirstPass(g0, h, count, root, rep, i, j)
    requires Before(c, Pair(i, j)) && InGrid(g0, c)
    ensures if Occupied(g0, c) then Done(g0, Put(h, Pair(i, j), v), count, root, rep, c)
      else At(Put(h, Pair(i, j), v), c) == At(g0, c)
  {
    ScannedAt(g0, h, count, root, rep, i, j, c);
    if Occupied(g0, c) {
      DonePut(g0, h, count, root, rep, c, Pair(i, j), v);
    }
  }

  /** The joining site itself: it takes the label, and so the class, of `nb`. */
  lemma JoinCur(g0: Grid, h: Grid, count: int, root: seq<int>, rep: seq<Pair>, i: int, j: int, nb: Pair)
    requires NonNegative(g0) && 0 <= i < |g0| && 0 <= j < |g0|
    requires FirstPass(g0, h, count, root, rep, i, j) && Occupied(g0, Pair(i, j))
    requires nb == PrevRow(Pair(i, j)) || nb == PrevCol(Pair(i, j))
    requires Occupied(g0, nb) && !(Occupied(g0, PrevRow(Pair(i, j))) && Occupied(g0, PrevCol(Pair(i, j))))
    ensures Done(g0, Put(h, Pair(i, j), At(h, nb)), count, root, rep, Pair(i, j))
  {
    var cur := Pair(i, j);
    ScannedAt(g0, h, count, root, rep, i, j, nb);
    ConnectedRefl(g0, nb);
    ConnectedStep(g0, nb, nb, cur);
    ConnectedSym(g0, nb, cur);
    ConnectedTrans(g0, cur, nb, rep[root[At(h, nb)]]);
  }

  /**
   * A site whose two scanned neighbours are occupied, with labels `up`
   * (previous column) and `left` (previous row), joins their classes: the
   * class of `up` is hung under the root of `left`, which the site receives.
   */
  lemma MergeStep(g0: Grid, h: Grid, count: int, root: seq<int>, root': seq<int>, rep: seq<Pair>, i: int, j: int,
                  up: int, left: int)
    requires NonNegative(g0) && 0 <= i < |g0| && 0 <= j < |g0|
    requires FirstPass(g0, h, count, root, rep, i, j) && Occupied(g0, Pair(i, j))
    requires Occupied(g0, PrevRow(Pair(i, j))) && Occupied(g0, PrevCol(Pair(i, j)))
    requires 1 <= up <= count && 1 <= left <= count
    requires At(h, PrevCol(Pair(i, j))) == up && At(h, PrevRow(Pair(i, j))) == left
    requires RootsOk(root', count) && |root'| == |root|
    requires forall k :: 1 <= k <= count ==> root'[k] == if root[k] == root[up] then root[left] else root[k]
    ensures FirstPass(g0, Put(h, Pair(i, j), root[left]), count, root', rep, i, j + 1)
  {
    assert !Start(g0, Pair(i, j));
    MergeSites(g0, h, count, root, root', rep, i, j, up, left);
  }

  lemma MergeSites(g0: Grid, h: Grid, count: int, root: seq<int>, root': seq<int>, rep: seq<Pair>, i: int, j: int,
                   up: int, left: int)
    requires NonNegative(g0) && 0 <= i < |g0| && 0 <= j < |g0|
    requires FirstPass(g0, h, count, root, rep, i, j) && Occupied(g0, Pair(i, j))
    requires Occupied(g0, PrevRow(Pair(i, j))) && Occupied(g0, PrevCol(Pair(i, j)))
    requires 1 <= up <= count && 1 <= left <= count
    requires At(h, PrevCol(Pair(i, j))) == up && At(h, PrevRow(Pair(i, j))) == left
    requires RootsOk(root', count) && |root'| == |root|
    requires forall k :: 1 <= k <= count ==> root'[k] == if root[k] == root[up] then root[left] else root[k]
    ensures forall c {:trigger Before(c, Pair(i, j + 1))} :: Before(c, Pair(i, j + 1)) && InGrid(g0, c) ==>
      if Occupied(g0, c) then Done(g0, Put(h, Pair(i, j), root[left]), count, root', rep, c)
      else At(Put(h, Pair(i, j), root[left]), c) == At(g0, c)
  {
    var cur, lc, uc := Pair(i, j), PrevRow(Pair(i, j)), PrevCol(Pair(i, j));
    var rx, ry := root[up], root[left];
    var h' := Put(h, cur, ry);
    ScannedAt(g0, h, count, root, rep, i, j, lc);
    ScannedAt(g0, h, count, root, rep, i, j, uc);
    assert Connected(g0, rep[rx], rep[ry]) by {
      ConnectedSym(g0, uc, rep[rx]);
      ConnectedStep(g0, rep[rx], uc, cur);
      ConnectedStep(g0, rep[rx], cur, lc);
      ConnectedTrans(g0, rep[rx], lc, rep[ry]);
    }
    forall c | Before(c, Pair(i, j + 1)) && InGrid(g0, c)
      ensures if Occupied(g0, c) then Done(g0, h', count, root', rep, c) else At(h', c) == At(g0, c)
    {
      if c == cur {
        MergeCur(g0, h, count, root, root', rep, cur, up, left);
      } else {
        ScannedAt(g0, h, count, root, rep, i, j, c);
        if Occupied(g0, c) {
          RerootDone(g0, h, count, root, root', rep, c, cur, ry, rx, ry);
        }
      }
    }
  }

  /** The merging site itself: it receives the root of `left`, which now roots both classes. */
  lemma MergeCur(g0: Grid, h: Grid, count: int, root: seq<int>, root': seq<int>, rep: seq<Pair>, cur: Pair,
                 up: int, left: int)
    requires RootsOk(root, count) && RootsOk(root', count) && |rep| == |root| == |root'|
    requires |h| == |g0| && Square(h)
    requires Occupied(g0, cur) && Occupied(g0, PrevRow(cur)) && Occupied(g0, PrevCol(cur))
    requires Done(g0, h, count, root, rep, PrevRow(cur)) && Done(g0, h, count, root, rep, PrevCol(cur))
    requires 1 <= up <= count && 1 <= left <= count
    requires At(h, PrevCol(cur)) == up && At(h, PrevRow(cur)) == left
    requires forall k :: 1 <= k <= count ==> root'[k] == if root[k] == root[up] then root[left] else root[k]
    ensures Done(g0, Put(h, cur, root[left]), count, root', rep, cur)
  {
    var lc, ry := PrevRow(cur), root[left];
    ConnectedSym(g0, lc, rep[ry]);
    ConnectedStep(g0, rep[ry], lc, cur);
    ConnectedSym(g0, rep[ry], cur);
  }

  /** Hanging class `rx` under `ry` and setting another site leaves a Done site Done. */
  lemma RerootDone(g0: Grid, h: Grid, count: int, root: seq<int>, root': seq<int>, rep: seq<Pair>, c: Pair,
                   cur: Pair, v: int, rx: int, ry: int)
    requires RootsOk(root, count) && RootsOk(root', count) && |rep| == |root| == |root'|
    requires Done(g0, h, count, root, rep, c) && c != cur && PrevRow(c) != cur && PrevCol(c) != cur
    requires 1 <= rx <= count && 1 <= ry <= count && Connected(g0, rep[rx], rep[ry])
    requires forall k :: 1 <= k <= count ==> root'[k] == if root[k] == rx then ry else root[k]
    ensures Done(g0, Put(h, cur, v), count, root', rep, c)
  {
    if root[At(h, c)] == rx {
      ConnectedTrans(g0, c, rep[rx], rep[ry]);
    }
  }

  /** The end of a row is the start of the next one. */
  lemma NextRowPass(g0: Grid, h: Grid, count: int, root: seq<int>, rep: seq<Pair>, i: int)
    requires FirstPass(g0, h, count, root, rep, i, |g0|)
    ensures FirstPass(g0, h, count, root, rep, i + 1, 0)
  {
    forall c | Before(c, Pair(i + 1, 0)) && InGrid(g0, c)
      ensures if Occupied(g0, c) then Done(g0, h, count, root, rep, c) else At(h, c) == At(g0, c)
    {
      ScannedAt(g0, h, count, root, rep, i, |g0|, c);
    }
  }

  // ---------------------------------------------------------------------------
  // Second pass: sequential ids
  // ---------------------------------------------------------------------------

  /**
   * The scanned occupied site `c` carries the id that `nl` gives its class,
   * an id already handed out, first handed out at `c` or at a site before it.
   */
  ghost predicate Renamed(h1: Grid, h: Grid, count: int, root: seq<int>, nl: seq<int>, firsts: seq<Pair>, c: Pair)
    requires RootsOk(root, count) && |nl| == |root|
  {
    1 <= At(h1, c) <= count && At(h, c) == nl[root[At(h1, c)]] && 1 <= At(h, c) <= |firsts| &&
    (firsts[At(h, c) - 1] == c || Before(firsts[At(h, c) - 1], c))
  }

  /**
   * The second pass has scanned every site before (i, j), renaming the
   * provisional labels of `h1` through `nl` (Java's `new_labels`), whose
   * slot 0 counts the ids handed out; `firsts` records where each id was
   * first handed out.
   */
  ghost predicate SecondPass(g0: Grid, h1: Grid, h: Grid, count: int, root: seq<int>, nl: seq<int>, firsts: seq<Pair>,
                             i: int, j: int) {
    0 <= i && 0 <= j && |h| == |g0| && Square(h) && RootsOk(root, count) && |nl| == |root| && nl[0] == |firsts| &&
    (forall c {:trigger At(h, c)} :: InGrid(g0, c) && (c.x > i || (c.x == i && c.y >= j)) ==> At(h, c) == At(h1, c)) &&
    (forall c {:trigger Before(c, Pair(i, j))} :: Before(c, Pair(i, j)) && InGrid(g0, c) ==>
      if Occupied(g0, c) then Renamed(h1, h, count, root, nl, firsts, c) else At(h, c) == At(h1, c)) &&
    (forall m :: 0 <= m < |firsts| ==>
      (firsts[m].x < i || (firsts[m].x == i && firsts[m].y < j)) && Occupied(g0, firsts[m]) &&
      At(h, firsts[m]) == m + 1) &&
    (forall m :: 0 < m < |firsts| ==> Before(firsts[m - 1], firsts[m])) &&
    (forall k :: 1 <= k <= count && nl[k] != 0 ==>
      1 <= nl[k] <= |firsts| && 1 <= At(h1, firsts[nl[k] - 1]) <= count && root[At(h1, firsts[nl[k] - 1])] == k)
  }

  lemma InitSecondPass(g0: Grid, h1: Grid, count: int, root: seq<int>, nl: seq<int>)
    requires |h1| == |g0| && Square(h1) && RootsOk(root, count) && |nl| == |root|
    requires forall k :: 0 <= k < |nl| ==> nl[k] == 0
    ensures SecondPass(g0, h1, h1, count, root, nl, [], 0, 0)
  {
  }

  /** What the second pass records about one scanned site. */
  lemma RenamedAt(g0: Grid, h1: Grid, h: Grid, count: int, root: seq<int>, nl: seq<int>, firsts: seq<Pair>,
                  i: int, j: int, c: Pair)
    requires SecondPass(g0, h1, h, count, root, nl, firsts, i, j) && Before(c, Pair(i, j)) && InGrid(g0, c)
    ensures if Occupied(g0, c) then Renamed(h1, h, count, root, nl, firsts, c) else At(h, c) == At(h1, c)
  {
  }

  /** At the end of the first pass, occupied sites hold labels and vacant ones 0. */
  lemma LabelledAt(g0: Grid, h1: Grid, count: int, root: seq<int>, rep: seq<Pair>, c: Pair)
    requires NonNegative(g0) && FirstPass(g0, h1, count, root, rep, |g0|, 0) && InGrid(g0, c)
    ensures Occupied(g0, c) ==> Done(g0, h1, count, root, rep, c)
    ensures !Occupied(g0, c) ==> At(h1, c) == 0
  {
    ScannedAt(g0, h1, count, root, rep, |g0|, 0, c);
  }

  /**
   * What the second pass needs of the first: occupied sites hold labels
   * 1 .. count and vacant ones 0.
   */
  ghost predicate Provisional(g0: Grid, h1: Grid, count: int) {
    |h1| == |g0| && Square(h1) &&
    forall c :: InGrid(g0, c) ==> (Occupied(g0, c) ==> 1 <= At(h1, c) <= count) && (!Occupied(g0, c) ==> At(h1, c) == 0)
  }

  lemma ProvisionalLabels(g0: Grid, h1: Grid, count: int, root: seq<int>, rep: seq<Pair>)
    requires NonNegative(g0) && FirstPass(g0, h1, count, root, rep, |g0|, 0)
    ensures Provisional(g0, h1, count)
  {
    forall c | InGrid(g0, c)
      ensures (Occupied(g0, c) ==> 1 <= At(h1, c) <= count) && (!Occupied(g0, c) ==> At(h1, c) == 0)
    {
      LabelledAt(g0, h1, count, root, rep, c);
    }
  }

  /** The second pass passes over a vacant site. */
  lemma RenameVacant(g0: Grid, h1: Grid, h: Grid, count: int, root: seq<int>, nl: seq<int>, firsts: seq<Pair>,
                     i: int, j: int)
    requires 0 <= i < |g0| && 0 <= j < |g0|
    requires SecondPass(g0, h1, h, count, root, nl, firsts, i, j) && !Occupied(g0, Pair(i, j))
    ensures SecondPass(g0, h1, h, count, root, nl, firsts, i, j + 1)
  {
    forall c | Before(c, Pair(i, j + 1)) && InGrid(g0, c)
      ensures if Occupied(g0, c) then Renamed(h1, h, count, root, nl, firsts, c) else At(h, c) == At(h1, c)
    {
      if c != Pair(i, j) {
        RenamedAt(g0, h1, h, count, root, nl, firsts, i, j, c);
      }
    }
  }

  /** An occupied site whose class already has an id receives that id. */
  lemma RenameSeen(g0: Grid, h1: Grid, h: Grid, count: int, root: seq<int>, nl: seq<int>, firsts: seq<Pair>,
                   i: int, j: int)
    requires 0 <= i < |g0| && 0 <= j < |g0|
    requires SecondPass(g0, h1, h, count, root, nl, firsts, i, j) && Occupied(g0, Pair(i, j))
    requires 1 <= At(h1, Pair(i, j)) <= count && nl[root[At(h1, Pair(i, j))]] != 0
    ensures SecondPass(g0, h1, Put(h, Pair(i, j), nl[root[At(h1, Pair(i, j))]]), count, root, nl, firsts, i, j + 1)
  {
    RenameSeenSites(g0, h1, h, count, root, nl, firsts, i, j);
  }

  lemma RenameSeenSites(g0: Grid, h1: Grid, h: Grid, count: int, root: seq<int>, nl: seq<int>, firsts: seq<Pair>,
                        i: int, j: int)
    requires 0 <= i < |g0| && 0 <= j < |g0|
    requires SecondPass(g0, h1, h, count, root, nl, firsts, i, j) && Occupied(g0, Pair(i, j))
    requires 1 <= At(h1, Pair(i, j)) <= count && nl[root[At(h1, Pair(i, j))]] != 0
    ensures forall c {:trigger Before(c, Pair(i, j + 1))} :: Before(c, Pair(i, j + 1)) && InGrid(g0, c) ==>
      if Occupied(g0, c) then Renamed(h1, Put(h, Pair(i, j), nl[root[At(h1, Pair(i, j))]]), count, root, nl, firsts, c)
      else At(Put(h, Pair(i, j), nl[root[At(h1, Pair(i, j))]]), c) == At(h1, c)
  {
    var cur := Pair(i, j);
    var x := root[At(h1, cur)];
    var h' := Put(h, cur, nl[x]);
    var f := firsts[nl[x] - 1];
    assert f.x < i || (f.x == i && f.y < j);
    assert Before(f, cur);
    forall c | Before(c, Pair(i, j + 1)) && InGrid(g0, c)
      ensures if Occupied(g0, c) then Renamed(h1, h', count, root, nl, firsts, c) else At(h', c) == At(h1, c)
    {
      if c != cur {
        RenamedAt(g0, h1, h, count, root, nl, firsts, i, j, c);
      }
    }
  }

  /** An occupied site whose class has no id yet receives the next id, first handed out here. */
  lemma RenameNew(g0: Grid, h1: Grid, h: Grid, count: int, root: seq<int>, nl: seq<int>, firsts: seq<Pair>,
                  i: int, j: int)
    requires 0 <= i < |g0| && 0 <= j < |g0|
    requires SecondPass(g0, h1, h, count, root, nl, firsts, i, j) && Occupied(g0, Pair(i, j))
    requires 1 <= At(h1, Pair(i, j)) <= count && nl[root[At(h1, Pair(i, j))]] == 0
    ensures var x, n := root[At(h1, Pair(i, j))], |firsts| + 1;
      SecondPass(g0, h1, Put(h, Pair(i, j), n), count, root, nl[0 := n][x := n], firsts + [Pair(i, j)], i, j + 1)
  {
    var cur := Pair(i, j);
    var x, n := root[At(h1, cur)], |firsts| + 1;
    var nl', firsts' := nl[0 := n][x := n], firsts + [cur];
    RenameNewSites(g0, h1, h, count, root, nl, firsts, i, j);
    var h' := Put(h, cur, n);
    forall m | 0 <= m < |firsts'|
      ensures (firsts'[m].x < i || (firsts'[m].x == i && firsts'[m].y < j + 1)) && Occupied(g0, firsts'[m]) &&
        At(h', firsts'[m]) == m + 1
    {
    }
  }

  lemma RenameNewSites(g0: Grid, h1: Grid, h: Grid, count: int, root: seq<int>, nl: seq<int>, firsts: seq<Pair>,
                       i: int, j: int)
    requires 0 <= i < |g0| && 0 <= j < |g0|
    requires SecondPass(g0, h1, h, count, root, nl, firsts, i, j) && Occupied(g0, Pair(i, j))
    requires 1 <= At(h1, Pair(i, j)) <= count && nl[root[At(h1, Pair(i, j))]] == 0
    ensures var x, n := root[At(h1, Pair(i, j))], |firsts| + 1;
      forall c {:trigger Before(c, Pair(i, j + 1))} :: Before(c, Pair(i, j + 1)) && InGrid(g0, c) ==>
        if Occupied(g0, c) then Renamed(h1, Put(h, Pair(i, j), n), count, root, nl[0 := n][x := n], firsts + [Pair(i, j)], c)
        else At(Put(h, Pair(i, j), n), c) == At(h1, c)
  {
    var cur := Pair(i, j);
    var x, n := root[At(h1, cur)], |firsts| + 1;
    var h', nl', firsts' := Put(h, cur, n), nl[0 := n][x := n], firsts + [cur];
    forall c | Before(c, Pair(i, j + 1)) && InGrid(g0, c)
      ensures if Occupied(g0, c) then Renamed(h1, h', count, root, nl', firsts', c) else At(h', c) == At(h1, c)
    {
      if c != cur {
        RenamedAt(g0, h1, h, count, root, nl, firsts, i, j, c);
        if Occupied(g0, c) {
          assert root[At(h1, c)] != x;
        }
      }
    }
  }

  /** The end of a row is the start of the next one. */
  lemma NextRowSecond(g0: Grid, h1: Grid, h: Grid, count: int, root: seq<int>, nl: seq<int>, firsts: seq<Pair>, i: int)
    requires SecondPass(g0, h1, h, count, root, nl, firsts, i, |g0|)
    ensures SecondPass(g0, h1, h, count, root, nl, firsts, i + 1, 0)
  {
    NextRowSites(g0, h1, h, count, root, nl, firsts, i);
  }

  lemma NextRowSites(g0: Grid, h1: Grid, h: Grid, count: int, root: seq<int>, nl: seq<int>, firsts: seq<Pair>, i: int)
    requires SecondPass(g0, h1, h, count, root, nl, firsts, i, |g0|)
    ensures forall c {:trigger Before(c, Pair(i + 1, 0))} :: Before(c, Pair(i + 1, 0)) && InGrid(g0, c) ==>
      if Occupied(g0, c) then Renamed(h1, h, count, root, nl, firsts, c) else At(h, c) == At(h1, c)
  {
    forall c | Before(c, Pair(i + 1, 0)) && InGrid(g0, c)
      ensures if Occupied(g0, c) then Renamed(h1, h, count, root, nl, firsts, c) else At(h, c) == At(h1, c)
    {
      RenamedAt(g0, h1, h, count, root, nl, firsts, i, |g0|, c);
    }
  }

  // ---------------------------------------------------------------------------
  // After both passes
  // ---------------------------------------------------------------------------

  /** Sites `a` and `b` hold first-pass labels of the same class. */
  ghost predicate SameClass(h1: Grid, count: int, root: seq<int>, a: Pair, b: Pair) {
    count < |root| && 1 <= At(h1, a) <= count && 1 <= At(h1, b) <= count && root[At(h1, a)] == root[At(h1, b)]
  }

  /** Adjacent occupied sites end the first pass in the same class. */
  lemma AdjacentSameClass(g0: Grid, h1: Grid, count: int, root: seq<int>, rep: seq<Pair>, a: Pair, b: Pair)
    requires NonNegative(g0) && FirstPass(g0, h1, count, root, rep, |g0|, 0)
    requires Occupied(g0, a) && Occupied(g0, b) && Adjacent(a, b)
    ensures SameClass(h1, count, root, a, b)
  {
    LabelledAt(g0, h1, count, root, rep, a);
    LabelledAt(g0, h1, count, root, rep, b);
    if b == NextRow(a) {
      assert a == PrevRow(b);
    } else if b == NextCol(a) {
      assert a == PrevCol(b);
    }
  }

  /** All the sites of a path end the first pass in the class of its first site. */
  lemma {:induction false} PathSameClass(g0: Grid, h1: Grid, count: int, root: seq<int>, rep: seq<Pair>, p: seq<Pair>)
    requires NonNegative(g0) && FirstPass(g0, h1, count, root, rep, |g0|, 0) && IsPath(g0, p)
    ensures SameClass(h1, count, root, p[0], p[|p| - 1])
  {
    if |p| == 1 {
      LabelledAt(g0, h1, count, root, rep, p[0]);
    } else {
      var q := p[..|p| - 1];
      assert IsPath(g0, q);
      PathSameClass(g0, h1, count, root, rep, q);
      AdjacentSameClass(g0, h1, count, root, rep, p[|p| - 2], p[|p| - 1]);
    }
  }

  /** Occupied sites are connected exactly when the first pass puts them in one class. */
  lemma ConnectedIffSameClass(g0: Grid, h1: Grid, count: int, root: seq<int>, rep: seq<Pair>, a: Pair, b: Pair)
    requires NonNegative(g0) && FirstPass(g0, h1, count, root, rep, |g0|, 0)
    requires Occupied(g0, a) && Occupied(g0, b)
    ensures Connected(g0, a, b) <==> SameClass(h1, count, root, a, b)
  {
    if Connected(g0, a, b) {
      var p :| IsPath(g0, p) && p[0] == a && p[|p| - 1] == b;
      PathSameClass(g0, h1, count, root, rep, p);
    }
    if SameClass(h1, count, root, a, b) {
      LabelledAt(g0, h1, count, root, rep, a);
      LabelledAt(g0, h1, count, root, rep, b);
      var r := rep[root[At(h1, a)]];
      ConnectedSym(g0, b, r);
      ConnectedTrans(g0, a, r, b);
    }
  }

  /** Both passes done: every occupied site carries the id of its class, every vacant one its input. */
  lemma FinalSites(g0: Grid, h1: Grid, h: Grid, count: int, root: seq<int>, rep: seq<Pair>, nl: seq<int>,
                   firsts: seq<Pair>, c: Pair)
    requires NonNegative(g0) && FirstPass(g0, h1, count, root, rep, |g0|, 0)
    requires SecondPass(g0, h1, h, count, root, nl, firsts, |g0|, 0) && InGrid(g0, c)
    ensures Occupied(g0, c) ==> Renamed(h1, h, count, root, nl, firsts, c)
    ensures !Occupied(g0, c) ==> At(h, c) == At(g0, c)
  {
    RenamedAt(g0, h1, h, count, root, nl, firsts, |g0|, 0, c);
    ScannedAt(g0, h1, count, root, rep, |g0|, 0, c);
  }

  /** Both passes done: two occupied sites share an id exactly when they are connected. */
  lemma FinalConnected(g0: Grid, h1: Grid, h: Grid, count: int, root: seq<int>, rep: seq<Pair>, nl: seq<int>,
                       firsts: seq<Pair>, c: Pair, d: Pair)
    requires NonNegative(g0) && FirstPass(g0, h1, count, root, rep, |g0|, 0)
    requires SecondPass(g0, h1, h, count, root, nl, firsts, |g0|, 0)
    requires Occupied(g0, c) && Occupied(g0, d)
    ensures At(h, c) == At(h, d) <==> Connected(g0, c, d)
  {
    FinalSites(g0, h1, h, count, root, rep, nl, firsts, c);
    FinalSites(g0, h1, h, count, root, rep, nl, firsts, d);
    ConnectedIffSameClass(g0, h1, count, root, rep, c, d);
    if At(h, c) == At(h, d) {
      var f := firsts[At(h, c) - 1];
      assert root[At(h1, f)] == root[At(h1, c)];
      assert root[At(h1, f)] == root[At(h1, d)];
    }
  }

  /** Both passes done: the ids label the clusters. */
  lemma FinalLabelling(g0: Grid, h1: Grid, h: Grid, count: int, root: seq<int>, rep: seq<Pair>, nl: seq<int>,
                       firsts: seq<Pair>)
    requires NonNegative(g0) && FirstPass(g0, h1, count, root, rep, |g0|, 0)
    requires SecondPass(g0, h1, h, count, root, nl, firsts, |g0|, 0)
    ensures ClusterLabelling(g0, h, nl[0])
  {
    forall c | InGrid(g0, c)
      ensures !Occupied(g0, c) ==> At(h, c) == At(g0, c)
      ensures Occupied(g0, c) ==> 1 <= At(h, c) <= nl[0]
    {
      FinalSites(g0, h1, h, count, root, rep, nl, firsts, c);
    }
    forall c, d | Occupied(g0, c) && Occupied(g0, d)
      ensures At(h, c) == At(h, d) <==> Connected(g0, c, d)
    {
      FinalConnected(g0, h1, h, count, root, rep, nl, firsts, c, d);
    }
  }

  /** Both passes done: the ids are handed out in order of first appearance. */
  lemma FinalEncounter(g0: Grid, h1: Grid, h: Grid, count: int, root: seq<int>, rep: seq<Pair>, nl: seq<int>,
                       firsts: seq<Pair>)
    requires NonNegative(g0) && FirstPass(g0, h1, count, root, rep, |g0|, 0)
    requires SecondPass(g0, h1, h, count, root, nl, firsts, |g0|, 0)
    ensures FirstEncounter(g0, h, nl[0], firsts)
  {
    forall c | Occupied(g0, c) && 1 <= At(h, c) <= |firsts|
      ensures firsts[At(h, c) - 1] == c || Before(firsts[At(h, c) - 1], c)
    {
      FinalSites(g0, h1, h, count, root, rep, nl, firsts, c);
    }
  }

  /** Both passes done: the ids label the clusters, sequentially in order of first appearance. */
  lemma BothPasses(g0: Grid, h1: Grid, h: Grid, count: int, root: seq<int>, rep: seq<Pair>, nl: seq<int>,
                   firsts: seq<Pair>)
    requires NonNegative(g0) && FirstPass(g0, h1, count, root, rep, |g0|, 0)
    requires SecondPass(g0, h1, h, count, root, nl, firsts, |g0|, 0)
    ensures ClusterLabelling(g0, h, nl[0]) && FirstEncounter(g0, h, nl[0], firsts)
  {
    FinalLabelling(g0, h1, h, count, root, rep, nl, firsts);
    FinalEncounter(g0, h1, h, count, root, rep, nl, firsts);
  }

  // ---------------------------------------------------------------------------
  // The algorithm
  // ---------------------------------------------------------------------------

  /** One site of the first pass (the body of the first double loop). */
  method FirstPassSite(model: array2<int>, forest: LabelForest, i: int, j: int, ghost g0: Grid, ghost rep: seq<Pair>)
    returns (ghost rep': seq<Pair>)
    requires model.Length0 == |g0| && model.Length1 == |g0| && 0 <= i < |g0| && 0 <= j < |g0|
    requires NonNegative(g0) && Starts(g0) < forest.labels.Length
    requires forest.Valid() && FirstPass(g0, Snapshot(model), forest.labels[0], forest.root, rep, i, j)
    modifies model, forest, forest.labels
    ensures forest.Valid() && FirstPass(g0, Snapshot(model), forest.labels[0], forest.root, rep', i, j + 1)
  {
    ghost var h, count, root := Snapshot(model), forest.labels[0], forest.root;
    var cur := Pair(i, j);
    UnscannedValue(g0, h, count, root, rep, i, j);
    SnapshotAt(model, cur);
    if model[i, j] > 0 {
      var left := if i - 1 < 0 then 0 else model[i - 1, j];
      var up := if j - 1 < 0 then 0 else model[i, j - 1];
      NeighbourValues(model, i, j, left, up);
      rep' := OccupiedSite(model, forest, i, j, left, up, g0, rep);
    } else {
      rep' := rep;
      VacantStep(g0, h, count, root, rep, i, j);
    }
  }

  /** The values read for the neighbours above and to the left, 0 off the lattice. */
  lemma NeighbourValues(model: array2<int>, i: int, j: int, left: int, up: int)
    requires 0 <= i < model.Length0 && 0 <= j < model.Length1
    requires left == if i - 1 < 0 then 0 else model[i - 1, j]
    requires up == if j - 1 < 0 then 0 else model[i, j - 1]
    ensures left == At(Snapshot(model), PrevRow(Pair(i, j))) && up == At(Snapshot(model), PrevCol(Pair(i, j)))
  {
  }

  /** An occupied site, labelled after its neighbours above (`left`) and to the left (`up`). */
  method OccupiedSite(model: array2<int>, forest: LabelForest, i: int, j: int, left: int, up: int,
                      ghost g0: Grid, ghost rep: seq<Pair>)
    returns (ghost rep': seq<Pair>)
    requires model.Length0 == |g0| && model.Length1 == |g0| && 0 <= i < |g0| && 0 <= j < |g0|
    requires NonNegative(g0) && Starts(g0) < forest.labels.Length && Occupied(g0, Pair(i, j))
    requires forest.Valid() && FirstPass(g0, Snapshot(model), forest.labels[0], forest.root, rep, i, j)
    requires left == At(Snapshot(model), PrevRow(Pair(i, j))) && up == At(Snapshot(model), PrevCol(Pair(i, j)))
    modifies model, forest, forest.labels
    ensures forest.Valid() && FirstPass(g0, Snapshot(model), forest.labels[0], forest.root, rep', i, j + 1)
  {
    ghost var h, count, root := Snapshot(model), forest.labels[0], forest.root;
    var cur := Pair(i, j);
    ScannedValue(g0, h, count, root, rep, i, j, PrevRow(cur));
    ScannedValue(g0, h, count, root, rep, i, j, PrevCol(cur));
    var x := if left != 0 then 1 else 0;
    var y := if up != 0 then 1 else 0;
    rep' := rep;
    if x + y == 0 {
      // a new cluster
      assert Start(g0, cur);
      StartsBeforeBound(g0, i, j + 1);
      rep' := NewClusterSite(model, forest, i, j, g0, rep);
    } else if x + y == 1 {
      // part of the one cluster whose label is nonzero
      var v := if up >= left then up else left;
      JoinSite(model, forest, i, j, v, g0, rep, if left != 0 then PrevRow(cur) else PrevCol(cur));
    } else {
      // this site binds two clusters
      MergeSite(model, forest, i, j, up, left, g0, rep);
    }
  }

  /** A site with exactly one labelled neighbour `nb` takes its label (Java's `case 1`). */
  method JoinSite(model: array2<int>, forest: LabelForest, i: int, j: int, v: int,
                  ghost g0: Grid, ghost rep: seq<Pair>, ghost nb: Pair)
    requires model.Length0 == |g0| && model.Length1 == |g0| && 0 <= i < |g0| && 0 <= j < |g0| && NonNegative(g0)
    requires forest.Valid() && FirstPass(g0, Snapshot(model), forest.labels[0], forest.root, rep, i, j)
    requires Occupied(g0, Pair(i, j)) && (nb == PrevRow(Pair(i, j)) || nb == PrevCol(Pair(i, j)))
    requires Occupied(g0, nb) && !(Occupied(g0, PrevRow(Pair(i, j))) && Occupied(g0, PrevCol(Pair(i, j))))
    requires v == At(Snapshot(model), nb)
    modifies model
    ensures forest.Valid() && FirstPass(g0, Snapshot(model), forest.labels[0], forest.root, rep, i, j + 1)
  {
    ghost var h, count, root := Snapshot(model), forest.labels[0], forest.root;
    Write(model, Pair(i, j), v);
    JoinStep(g0, h, count, root, rep, i, j, nb);
  }

  /** A start opens a new cluster (Java's `case 0`). */
  method NewClusterSite(model: array2<int>, forest: LabelForest, i: int, j: int, ghost g0: Grid, ghost rep: seq<Pair>)
    returns (ghost rep': seq<Pair>)
    requires model.Length0 == |g0| && model.Length1 == |g0| && 0 <= i < |g0| && 0 <= j < |g0| && NonNegative(g0)
    requires forest.Valid() && FirstPass(g0, Snapshot(model), forest.labels[0], forest.root, rep, i, j)
    requires Start(g0, Pair(i, j)) && forest.labels[0] + 1 < forest.labels.Length
    modifies model, forest, forest.labels
    ensures forest.Valid() && FirstPass(g0, Snapshot(model), forest.labels[0], forest.root, rep', i, j + 1)
  {
    ghost var h, count, root := Snapshot(model), forest.labels[0], forest.root;
    var n := forest.UpdateCluster();
    Write(model, Pair(i, j), n);
    rep' := rep[n := Pair(i, j)];
    NewLabelStep(g0, h, count, root, forest.root, rep, i, j);
  }

  /** A site that binds the clusters of its labelled neighbours `up` and `left` (Java's `case 2`). */
  method MergeSite(model: array2<int>, forest: LabelForest, i: int, j: int, up: int, left: int,
                   ghost g0: Grid, ghost rep: seq<Pair>)
    requires model.Length0 == |g0| && model.Length1 == |g0| && 0 <= i < |g0| && 0 <= j < |g0| && NonNegative(g0)
    requires forest.Valid() && FirstPass(g0, Snapshot(model), forest.labels[0], forest.root, rep, i, j)
    requires Occupied(g0, Pair(i, j)) && Occupied(g0, PrevRow(Pair(i, j))) && Occupied(g0, PrevCol(Pair(i, j)))
    requires 1 <= up <= forest.labels[0] && 1 <= left <= forest.labels[0]
    requires At(Snapshot(model), PrevCol(Pair(i, j))) == up && At(Snapshot(model), PrevRow(Pair(i, j))) == left
    modifies model, forest, forest.labels
    ensures forest.Valid() && FirstPass(g0, Snapshot(model), forest.labels[0], forest.root, rep, i, j + 1)
  {
    ghost var h, count, root := Snapshot(model), forest.labels[0], forest.root;
    var r := forest.UnionFind(up, left);
    Write(model, Pair(i, j), r);
    ForestRoots(forest.labels[..], forest.root, forest.dist);
    MergeStep(g0, h, count, root, forest.root, rep, i, j, up, left);
  }

  /** One site of the second pass (the body of the second double loop). */
  method SecondPassSite(model: array2<int>, forest: LabelForest, newLabels: array<int>, i: int, j: int,
                        ghost g0: Grid, ghost h1: Grid, ghost count: int, ghost root: seq<int>, ghost firsts: seq<Pair>)
    returns (ghost firsts': seq<Pair>)
    requires model.Length0 == |g0| && model.Length1 == |g0| && 0 <= i < |g0| && 0 <= j < |g0|
    requires newLabels != forest.labels && newLabels.Length == forest.labels.Length
    requires forest.Valid() && forest.labels[0] == count && forest.root == root && Provisional(g0, h1, count)
    requires SecondPass(g0, h1, Snapshot(model), count, root, newLabels[..], firsts, i, j)
    modifies model, forest.labels, newLabels
    ensures forest.Valid() && forest.labels[0] == count
    ensures SecondPass(g0, h1, Snapshot(model), count, root, newLabels[..], firsts', i, j + 1)
  {
    ghost var h := Snapshot(model);
    var cur := Pair(i, j);
    assert At(h, cur) == At(h1, cur);
    SnapshotAt(model, cur);
    firsts' := firsts;
    if model[i, j] != 0 {
      var x := forest.Find(model[i, j]);
      if newLabels[x] == 0 {
        firsts' := NewIdSite(model, newLabels, i, j, x, g0, h1, count, root, firsts);
      } else {
        RenameSeen(g0, h1, h, count, root, newLabels[..], firsts, i, j);
        Write(model, cur, newLabels[x]);
      }
    } else {
      RenameVacant(g0, h1, h, count, root, newLabels[..], firsts, i, j);
    }
  }

  /** A site whose class `x` has no id yet receives the next one (Java's `new_labels[0]++`). */
  method NewIdSite(model: array2<int>, newLabels: array<int>, i: int, j: int, x: int,
                   ghost g0: Grid, ghost h1: Grid, ghost count: int, ghost root: seq<int>, ghost firsts: seq<Pair>)
    returns (ghost firsts': seq<Pair>)
    requires model.Length0 == |g0| && model.Length1 == |g0| && 0 <= i < |g0| && 0 <= j < |g0|
    requires SecondPass(g0, h1, Snapshot(model), count, root, newLabels[..], firsts, i, j)
    requires Occupied(g0, Pair(i, j)) && 1 <= At(h1, Pair(i, j)) <= count
    requires x == root[At(h1, Pair(i, j))] && newLabels[x] == 0
    modifies model, newLabels
    ensures SecondPass(g0, h1, Snapshot(model), count, root, newLabels[..], firsts', i, j + 1)
  {
    ghost var h, nl := Snapshot(model), newLabels[..];
    newLabels[0] := newLabels[0] + 1;
    newLabels[x] := newLabels[0];
    assert newLabels[..] == nl[0 := |firsts| + 1][x := |firsts| + 1];
    firsts' := firsts + [Pair(i, j)];
    RenameNew(g0, h1, h, count, root, nl, firsts, i, j);
    Write(model, Pair(i, j), newLabels[x]);
  }

  /** The first double loop: provisional labels for every site. */
  method FirstScan(model: array2<int>, forest: LabelForest, ghost g0: Grid) returns (ghost rep: seq<Pair>)
    requires model.Length0 == |g0| && model.Length1 == |g0| && Snapshot(model) == g0 && NonNegative(g0)
    requires forest.Valid() && forest.labels[0] == 0 && Starts(g0) < forest.labels.Length
    modifies model, forest, forest.labels
    ensures forest.Valid() && FirstPass(g0, Snapshot(model), forest.labels[0], forest.root, rep, |g0|, 0)
  {
    var len := model.Length0;
    rep := seq(forest.labels.Length, _ => Pair(0, 0));
    InitFirstPass(g0, forest.root, rep);
    var i := 0;
    while i < len
      invariant 0 <= i <= len
      invariant forest.Valid() && FirstPass(g0, Snapshot(model), forest.labels[0], forest.root, rep, i, 0)
    {
      rep := FirstScanRow(model, forest, i, g0, rep);
      NextRowPass(g0, Snapshot(model), forest.labels[0], forest.root, rep, i);
      i := i + 1;
    }
  }

  /** One row of the first double loop. */
  method FirstScanRow(model: array2<int>, forest: LabelForest, i: int, ghost g0: Grid, ghost rep: seq<Pair>)
    returns (ghost rep': seq<Pair>)
    requires model.Length0 == |g0| && model.Length1 == |g0| && 0 <= i < |g0| && NonNegative(g0)
    requires Starts(g0) < forest.labels.Length
    requires forest.Valid() && FirstPass(g0, Snapshot(model), forest.labels[0], forest.root, rep, i, 0)
    modifies model, forest, forest.labels
    ensures forest.Valid() && FirstPass(g0, Snapshot(model), forest.labels[0], forest.root, rep', i, |g0|)
  {
    rep' := rep;
    var j := 0;
    while j < model.Length1
      invariant 0 <= j <= |g0|
      invariant forest.Valid() && FirstPass(g0, Snapshot(model), forest.labels[0], forest.root, rep', i, j)
    {
      rep' := FirstPassSite(model, forest, i, j, g0, rep');
      j := j + 1;
    }
  }

  /** The second double loop: every provisional label renamed to its class's sequential id. */
  method SecondScan(model: array2<int>, forest: LabelForest, newLabels: array<int>,
                    ghost g0: Grid, ghost h1: Grid, ghost count: int, ghost root: seq<int>) returns (ghost firsts: seq<Pair>)
    requires model.Length0 == |g0| && model.Length1 == |g0|
    requires newLabels != forest.labels && newLabels.Length == forest.labels.Length
    requires forest.Valid() && forest.labels[0] == count && forest.root == root && Provisional(g0, h1, count)
    requires SecondPass(g0, h1, Snapshot(model), count, root, newLabels[..], [], 0, 0)
    modifies model, forest.labels, newLabels
    ensures SecondPass(g0, h1, Snapshot(model), count, root, newLabels[..], firsts, |g0|, 0)
  {
    var len := model.Length0;
    firsts := [];
    var i := 0;
    while i < len
      invariant 0 <= i <= len
      invariant forest.Valid() && forest.labels[0] == count
      invariant SecondPass(g0, h1, Snapshot(model), count, root, newLabels[..], firsts, i, 0)
    {
      firsts := SecondScanRow(model, forest, newLabels, i, g0, h1, count, root, firsts);
      NextRowSecond(g0, h1, Snapshot(model), count, root, newLabels[..], firsts, i);
      i := i + 1;
    }
  }

  /** One row of the second double loop. */
  method SecondScanRow(model: array2<int>, forest: LabelForest, newLabels: array<int>, i: int,
                       ghost g0: Grid, ghost h1: Grid, ghost count: int, ghost root: seq<int>, ghost firsts: seq<Pair>)
    returns (ghost firsts': seq<Pair>)
    requires model.Length0 == |g0| && model.Length1 == |g0| && 0 <= i < |g0|
    requires newLabels != forest.labels && newLabels.Length == forest.labels.Length
    requires forest.Valid() && forest.labels[0] == count && forest.root == root && Provisional(g0, h1, count)
    requires SecondPass(g0, h1, Snapshot(model), count, root, newLabels[..], firsts, i, 0)
    modifies model, forest.labels, newLabels
    ensures forest.Valid() && forest.labels[0] == count
    ensures SecondPass(g0, h1, Snapshot(model), count, root, newLabels[..], firsts', i, |g0|)
  {
    firsts' := firsts;
    var j := 0;
    while j < model.Length1
      invariant 0 <= j <= |g0|
      invariant forest.Valid() && forest.labels[0] == count
      invariant SecondPass(g0, h1, Snapshot(model), count, root, newLabels[..], firsts', i, j)
    {
      firsts' := SecondPassSite(model, forest, newLabels, i, j, g0, h1, count, root, firsts');
      j := j + 1;
    }
  }

  /**
   * The Hoshen–Kopelman labelling with label arrays of `cap` slots: it
   * relabels the clusters of `model` in place with sequential ids and
   * returns their number. Every label must fit: Java fails on the first one
   * that does not.
   */
  method LabelClusters(model: array2<int>, cap: int) returns (k: int, ghost firsts: seq<Pair>)
    requires model.Length0 == model.Length1 && NonNegative(Snapshot(model))
    requires Starts(Snapshot(model)) < cap
    modifies model
    ensures ClusterLabelling(old(Snapshot(model)), Snapshot(model), k)
    ensures FirstEncounter(old(Snapshot(model)), Snapshot(model), k, firsts)
  {
    ghost var g0 := Snapshot(model);
    var forest := new LabelForest(cap);
    ghost var rep := FirstScan(model, forest, g0);
    ghost var h1 := Snapshot(model);
    var newLabels := new int[cap](_ => 0);
    InitSecondPass(g0, h1, forest.labels[0], forest.root, newLabels[..]);
    ghost var count, root := forest.labels[0], forest.root;
    ProvisionalLabels(g0, h1, count, root, rep);
    firsts := SecondScan(model, forest, newLabels, g0, h1, count, root);
    BothPasses(g0, h1, Snapshot(model), count, root, rep, newLabels[..], firsts);
    k := newLabels[0];
  }
}
