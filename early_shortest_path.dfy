/**
 * The burning method of the early version of the lattice model. Its loop
 * differs from the later one in a single branch: the branch for the
 * neighbour in the next column always enqueues that neighbour, but skips the
 * relabelling when the neighbour's COLUMN index equals the last ROW index.
 * Such a neighbour stays at 1 in the queue, so the search may later reach it
 * again from another side with a smaller or larger value, and the value found
 * on the last row is no longer a path length.
 */
module EarlyShortestPath {
  import opened Lattice
  import opened Burning

  /** The four neighbour branches of the early loop body, in its order. */
  function EarlyBranches(w: Pair, L: int): seq<Branch> {
    [Branch(PrevRow(w), true, true), Branch(NextRow(w), true, true),
     Branch(NextCol(w), true, w.y + 1 != L - 1), Branch(PrevCol(w), true, true)]
  }

  /** One iteration of the early loop. */
  function EarlyStep(s: Burn): Burn {
    if s.q == [] then s else ExpandAll(Burn(s.g, s.q[1..]), s.q[0], EarlyBranches(s.q[0], |s.g|))
  }

  /** The state after `n` iterations of the early loop. */
  function EarlyRun(s: Burn, n: nat): Burn {
    if n == 0 then s else EarlyStep(EarlyRun(s, n - 1))
  }

  lemma EarlyBranchesFacts(g: Grid, w: Pair, d: Pair)
    ensures Distinct(w, EarlyBranches(w, |g|))
    ensures Relabels(EarlyBranches(w, |g|), d) <==> Adjacent(w, d) && (d == NextCol(w) ==> w.y + 1 != |g| - 1)
    ensures Enqueues(g, EarlyBranches(w, |g|), d) <==> Adjacent(w, d) && InGrid(g, d) && At(g, d) == 1
  {
    var bs := EarlyBranches(w, |g|);
    if Adjacent(w, d) {
      if d == PrevRow(w) {
        assert bs[0].n == d;
      } else if d == NextRow(w) {
        assert bs[1].n == d;
      } else if d == NextCol(w) {
        assert bs[2].n == d;
      } else {
        assert bs[3].n == d;
      }
    }
  }

  // ----- Termination: a weighted count of queue entries plus twice the 1s.

  /** Weight of a queue: 2 for an entry off the last column, 1 for an entry on it. */
  function Weight(q: seq<Pair>, L: int): nat {
    if q == [] then 0 else Weight(q[..|q| - 1], L) + (if q[|q| - 1].y < L - 1 then 2 else 1)
  }

  /** What the early loop's iterations use up: it strictly decreases with every iteration. */
  function Potential(s: Burn): nat {
    2 * Ones(s.g) + Weight(s.q, |s.g|)
  }

  lemma {:induction false} WeightFront(q: seq<Pair>, L: int)
    requires q != []
    ensures Weight(q, L) == (if q[0].y < L - 1 then 2 else 1) + Weight(q[1..], L)
    decreases |q|
  {
    if |q| > 1 {
      WeightFront(q[..|q| - 1], L);
      assert q[..|q| - 1][1..] == q[1..][..|q[1..]| - 1];
    }
  }

  lemma {:induction false} WeightBound(q: seq<Pair>, L: int)
    ensures Weight(q, L) <= 2 * |q|
  {
    if q != [] {
      WeightBound(q[..|q| - 1], L);
    }
  }

  /** A branch that skips the relabelling only for a last-column site adds at most 1 to the potential. */
  lemma ExpandPotential(s: Burn, w: Pair, b: Branch, L: int)
    requires At(s.g, w) >= 1 && (b.relabel || b.n.y == L - 1)
    ensures var t := Expand(s, w, b.n, b.enqueue, b.relabel);
      2 * Ones(t.g) + Weight(t.q, L) <= 2 * Ones(s.g) + Weight(s.q, L) + (if b.relabel then 0 else 1)
  {
    var t := Expand(s, w, b.n, b.enqueue, b.relabel);
    if InGrid(s.g, b.n) && At(s.g, b.n) == 1 {
      if b.relabel {
        OnesPut(s.g, b.n, At(s.g, b.n) + At(s.g, w));
      }
      if b.enqueue {
        assert (s.q + [b.n])[..|s.q|] == s.q;
      }
    }
  }

  /** Branches of which at most one skips the relabelling, that one on the last column, add at most 1. */
  lemma {:induction false} ExpandAllPotential(s: Burn, w: Pair, bs: seq<Branch>, L: int)
    requires Distinct(w, bs) && At(s.g, w) >= 1
    requires forall i :: 0 <= i < |bs| ==> bs[i].relabel || bs[i].n.y == L - 1
    requires forall i, j :: 0 <= i < |bs| && 0 <= j < |bs| && !bs[i].relabel && !bs[j].relabel ==> i == j
    ensures var t := ExpandAll(s, w, bs);
      2 * Ones(t.g) + Weight(t.q, L) <=
      2 * Ones(s.g) + Weight(s.q, L) + (if forall i :: 0 <= i < |bs| ==> bs[i].relabel then 0 else 1)
    decreases |bs|
  {
    if bs != [] {
      var b := bs[0];
      var s1 := Expand(s, w, b.n, b.enqueue, b.relabel);
      DistinctTail(w, bs);
      ExpandPotential(s, w, b, L);
      ExpandAt(s, w, b.n, b.enqueue, b.relabel, w);
      assert forall i :: 0 <= i < |bs[1..]| ==> bs[1..][i] == bs[i + 1];
      ExpandAllPotential(s1, w, bs[1..], L);
      if !b.relabel {
        assert forall i :: 0 <= i < |bs[1..]| ==> bs[1..][i].relabel;
      }
      if forall i :: 0 <= i < |bs| ==> bs[i].relabel {
        assert forall i :: 0 <= i < |bs[1..]| ==> bs[1..][i].relabel;
      }
    }
  }

  /** Every iteration of the early loop strictly lowers the potential. */
  lemma EarlyStepPotential(s: Burn)
    requires s.q != [] && At(s.g, s.q[0]) >= 1
    ensures Potential(EarlyStep(s)) < Potential(s)
  {
    var w, L := s.q[0], |s.g|;
    var bs := EarlyBranches(w, L);
    EarlyBranchesFacts(s.g, w, w);
    WeightFront(s.q, L);
    ExpandAllShape(Burn(s.g, s.q[1..]), w, bs);
    ExpandAllPotential(Burn(s.g, s.q[1..]), w, bs, L);
  }

  // ----- What every iteration keeps, for any square input.

  /**
   * After `n` iterations: only sites holding 1 change, and a changed site
   * holds at least 2; queued sites lie on the lattice and hold at least 1
   * (a site enqueued without relabelling still holds 1); and the iterations
   * so far plus the potential stay within 2 * L * L.
   */
  ghost predicate EarlyFrame(g0: Grid, s: Burn, n: nat) {
    var L := |g0|;
    Square(s.g) && |s.g| == L &&
    (forall c :: InGrid(g0, c) && At(g0, c) != 1 ==> At(s.g, c) == At(g0, c)) &&
    (forall c :: InGrid(g0, c) && At(g0, c) == 1 ==> At(s.g, c) == 1 || At(s.g, c) >= 2) &&
    (forall k :: 0 <= k < |s.q| ==> InGrid(g0, s.q[k]) && At(s.g, s.q[k]) >= 1) &&
    n + Potential(s) <= 2 * (L * L)
  }

  lemma EarlyInitFrame(g0: Grid)
    requires Square(g0) && |g0| >= 1
    ensures EarlyFrame(g0, Seeded(g0), 0)
  {
    var s := Seeded(g0);
    forall c {:trigger At(s.g, c)}
      ensures At(s.g, c) == if c.x == 0 && 0 <= c.y < |g0| && At(g0, c) == 1 then 2 else At(g0, c)
    {
      SeedGridAt(g0, |g0|, c);
    }
    SeedGridAt(g0, |g0|, Pair(0, 0));
    forall k | 0 <= k < |s.q|
      ensures InGrid(g0, s.q[k]) && At(s.g, s.q[k]) >= 1
    {
      SeedQueueHas(g0, |g0|, s.q[k]);
    }
    assert Potential(s) <= 2 * (|g0| * |g0|) by {
      SeedBudget(g0, |g0|);
      OnesBound(g0, |g0|);
      WeightBound(s.q, |g0|);
      assert Potential(s) <= 2 * Ones(s.g) + 2 * |s.q| == 2 * Ones(g0);
    }
  }

  /** What one early iteration does to the lattice: the neighbours of `w` it relabels get the value of `w` plus 1. */
  lemma EarlyStepAt(s: Burn)
    requires Square(s.g) && s.q != []
    ensures Square(EarlyStep(s).g) && |EarlyStep(s).g| == |s.g|
    ensures forall d :: (At(EarlyStep(s).g, d) ==
      if Relabels(EarlyBranches(s.q[0], |s.g|), d) && InGrid(s.g, d) && At(s.g, d) == 1
      then At(s.g, s.q[0]) + 1 else At(s.g, d))
  {
    var w := s.q[0];
    var s0 := Burn(s.g, s.q[1..]);
    EarlyBranchesFacts(s.g, w, w);
    ExpandAllShape(s0, w, EarlyBranches(w, |s.g|));
    forall d
      ensures At(EarlyStep(s).g, d) ==
        if Relabels(EarlyBranches(w, |s.g|), d) && InGrid(s.g, d) && At(s.g, d) == 1 then At(s.g, w) + 1 else At(s.g, d)
    {
      ExpandAllAt(s0, w, EarlyBranches(w, |s.g|), d);
    }
  }

  /** What one early iteration does to the queue: it appends every neighbour of `w` that holds 1. */
  lemma EarlyStepQueue(s: Burn) returns (added: seq<Pair>)
    requires s.q != []
    ensures EarlyStep(s).q == s.q[1..] + added
    ensures forall d :: d in added <==> Adjacent(s.q[0], d) && InGrid(s.g, d) && At(s.g, d) == 1
  {
    var w := s.q[0];
    EarlyBranchesFacts(s.g, w, w);
    ExpandAllQueue(Burn(s.g, s.q[1..]), w, EarlyBranches(w, |s.g|));
    added := Enqueued(s.g, EarlyBranches(w, |s.g|));
    forall d
      ensures d in added <==> Adjacent(w, d) && InGrid(s.g, d) && At(s.g, d) == 1
    {
      EarlyBranchesFacts(s.g, w, d);
      EnqueuedIff(s.g, EarlyBranches(w, |s.g|), d);
    }
  }

  /** One early iteration keeps the frame. */
  lemma EarlyStepFrame(g0: Grid, s: Burn, n: nat)
    requires EarlyFrame(g0, s, n) && s.q != []
    ensures EarlyFrame(g0, EarlyStep(s), n + 1)
  {
    var t := EarlyStep(s);
    EarlyStepPotential(s);
    EarlyStepAt(s);
    var added := EarlyStepQueue(s);
    forall k | 0 <= k < |t.q|
      ensures InGrid(g0, t.q[k]) && At(t.g, t.q[k]) >= 1
    {
      if k < |s.q| - 1 {
        assert t.q[k] == s.q[k + 1];
      } else {
        var d := t.q[k];
        assert d == added[k - |s.q| + 1];
        assert InGrid(s.g, d) && At(s.g, d) == 1;
      }
    }
  }

  lemma {:induction false} EarlyRunFrame(g0: Grid, n: nat)
    requires Square(g0) && |g0| >= 1
    requires n == 0 || EarlyRun(Seeded(g0), n - 1).q != []
    ensures EarlyFrame(g0, EarlyRun(Seeded(g0), n), n)
  {
    if n == 0 {
      EarlyInitFrame(g0);
    } else {
      if n >= 2 {
        assert EarlyRun(Seeded(g0), n - 2).q != [];
      }
      EarlyRunFrame(g0, n - 1);
      EarlyStepFrame(g0, EarlyRun(Seeded(g0), n - 1), n - 1);
    }
  }

  lemma EarlyRunBound(g0: Grid, n: nat)
    requires Square(g0) && |g0| >= 1
    requires n == 0 || EarlyRun(Seeded(g0), n - 1).q != []
    ensures var s := EarlyRun(Seeded(g0), n);
      n + |s.q| <= 2 * (|g0| * |g0|) && forall k :: 0 <= k < |s.q| ==> InGrid(g0, s.q[k])
  {
    EarlyRunFrame(g0, n);
    var s := EarlyRun(Seeded(g0), n);
    WeightAtLeast(s.q, |g0|);
  }

  lemma {:induction false} WeightAtLeast(q: seq<Pair>, L: int)
    ensures |q| <= Weight(q, L)
  {
    if q != [] {
      WeightAtLeast(q[..|q| - 1], L);
    }
  }

  // ----- The early method.

  /** The body of the early loop: poll the head site and run its four branches in place. */
  method EarlyIteration(model: array2<int>, queue: seq<Pair>) returns (queue': seq<Pair>)
    requires model.Length0 == model.Length1 && queue != []
    requires 0 <= queue[0].x < model.Length0 && 0 <= queue[0].y < model.Length1
    modifies model
    ensures Burn(Snapshot(model), queue') == EarlyStep(Burn(old(Snapshot(model)), queue))
  {
    ghost var s := Burn(Snapshot(model), queue);
    var lastRowIndex := model.Length0 - 1;
    var cell := queue[0];
    ghost var bs := EarlyBranches(cell, model.Length0);
    queue' := queue[1..];
    assert ExpandAll(Burn(Snapshot(model), queue'), cell, bs) == EarlyStep(s);
    queue' := ExpandInPlace(model, queue', cell, PrevRow(cell), true, true);
    assert ExpandAll(Burn(Snapshot(model), queue'), cell, bs[1..]) == EarlyStep(s);
    queue' := ExpandInPlace(model, queue', cell, NextRow(cell), true, true);
    assert ExpandAll(Burn(Snapshot(model), queue'), cell, bs[2..]) == EarlyStep(s);
    queue' := ExpandInPlace(model, queue', cell, NextCol(cell), true, cell.y + 1 != lastRowIndex);
    assert ExpandAll(Burn(Snapshot(model), queue'), cell, bs[3..]) == EarlyStep(s);
    queue' := ExpandInPlace(model, queue', cell, PrevCol(cell), true, true);
    assert ExpandAll(Burn(Snapshot(model), queue'), cell, bs[4..]) == EarlyStep(s);
  }

  /**
   * Java's `shortestPathInModel` of the early version: burns the lattice in
   * place and scans the last row. It always stops, within 2 * L * L
   * iterations, but its result is not a shortest path length in general
   * (see `EarlyReportsTooShort`).
   */
  method EarlyShortestPathInModel(model: array2<int>) returns (r: int, ghost steps: nat)
    requires model.Length0 == model.Length1 >= 1
    modifies model
    ensures EarlyRun(Seeded(old(Snapshot(model))), steps) == Burn(Snapshot(model), [])
    ensures steps <= 2 * (model.Length0 * model.Length0)
    ensures ScanResult(Snapshot(model)[model.Length0 - 1], r)
  {
    ghost var g0 := Snapshot(model);
    var len := model.Length0;
    var queue := SeedRow(model);
    steps := 0;
    EarlyRunBound(g0, 0);
    while queue != []
      invariant Burn(Snapshot(model), queue) == EarlyRun(Seeded(g0), steps)
      invariant steps == 0 || EarlyRun(Seeded(g0), steps - 1).q != []
      invariant steps + |queue| <= 2 * (len * len) && forall k :: 0 <= k < |queue| ==> InGrid(g0, queue[k])
      decreases 2 * (len * len) - steps
    {
      queue := EarlyIteration(model, queue);
      steps := steps + 1;
      EarlyRunBound(g0, steps);
    }
    r := ScanLastRow(model);
  }

  // ----- A lattice on which the early method reports a path shorter than any spanning path.

  /** The 3 x 3 lattice whose only spanning path runs (0,0) (1,0) (1,1) (1,2) (2,2). */
  function Witness(): Grid {
    [[1, 0, 0], [1, 1, 1], [0, 0, 1]]
  }

  /** The states of the early loop on `Witness`, iteration by iteration. */
  function WitnessState(n: nat): Burn {
    if n == 0 then Burn([[2, 0, 0], [1, 1, 1], [0, 0, 1]], [Pair(0, 0)])
    else if n == 1 then Burn([[2, 0, 0], [3, 1, 1], [0, 0, 1]], [Pair(1, 0)])
    else if n == 2 then Burn([[2, 0, 0], [3, 4, 1], [0, 0, 1]], [Pair(1, 1)])
    // (1,2) is enqueued from (1,1) but keeps its 1: its column index 2 is the last row index.
    else if n == 3 then Burn([[2, 0, 0], [3, 4, 1], [0, 0, 1]], [Pair(1, 2)])
    // Polled while still holding 1, (1,2) passes 1 + 1 = 2 to (2,2) on the last row.
    else if n == 4 then Burn([[2, 0, 0], [3, 4, 1], [0, 0, 2]], [Pair(2, 2)])
    else if n == 5 then Burn([[2, 0, 0], [3, 4, 3], [0, 0, 2]], [Pair(1, 2)])
    else Burn([[2, 0, 0], [3, 4, 3], [0, 0, 2]], [])
  }

  lemma {:induction false} WitnessRun(n: nat)
    ensures EarlyRun(Seeded(Witness()), n) == WitnessState(n)
  {
    if n == 0 {
      var g := Witness();
      assert SeedGrid(g, 1) == Put(g, Pair(0, 0), 2) == WitnessState(0).g by {
        assert g[0][0 := 2] == [2, 0, 0];
      }
      assert SeedGrid(g, 3) == SeedGrid(g, 2) == SeedGrid(g, 1);
      assert SeedQueue(g, 3) == SeedQueue(g, 2) == SeedQueue(g, 1) == [Pair(0, 0)];
    } else {
      WitnessRun(n - 1);
      match n - 1
      case 0 => WitnessStep0();
      case 1 => WitnessStep1();
      case 2 => WitnessStep2();
      case 3 => WitnessStep3();
      case 4 => WitnessStep4();
      case 5 => WitnessStep5();
      case _ =>
    }
  }

  /** Four branches, unfolded. */
  lemma ExpandAllFour(s: Burn, w: Pair, bs: seq<Branch>)
    requires |bs| == 4
    ensures ExpandAll(s, w, bs) ==
      Expand(Expand(Expand(Expand(s, w, bs[0].n, bs[0].enqueue, bs[0].relabel),
        w, bs[1].n, bs[1].enqueue, bs[1].relabel), w, bs[2].n, bs[2].enqueue, bs[2].relabel),
        w, bs[3].n, bs[3].enqueue, bs[3].relabel)
  {
    var s1 := Expand(s, w, bs[0].n, bs[0].enqueue, bs[0].relabel);
    var s2 := Expand(s1, w, bs[1].n, bs[1].enqueue, bs[1].relabel);
    var s3 := Expand(s2, w, bs[2].n, bs[2].enqueue, bs[2].relabel);
    var s4 := Expand(s3, w, bs[3].n, bs[3].enqueue, bs[3].relabel);
    assert ExpandAll(s3, w, bs[3..]) == ExpandAll(s4, w, bs[4..]) == s4;
    assert ExpandAll(s2, w, bs[2..]) == ExpandAll(s3, w, bs[3..]);
    assert ExpandAll(s1, w, bs[1..]) == ExpandAll(s2, w, bs[2..]);
  }

  // Each iteration of the early loop on `Witness`, branch by branch.

  lemma WitnessStep0()
    ensures EarlyStep(WitnessState(0)) == WitnessState(1)
  {
    var w := Pair(0, 0);
    var t0 := Burn([[2, 0, 0], [1, 1, 1], [0, 0, 1]], []);
    var t1 := Burn([[2, 0, 0], [1, 1, 1], [0, 0, 1]], []);
    assert Expand(t0, w, PrevRow(w), true, true) == t1;
    assert At(t1.g, Pair(1, 0)) == 1 && At(t1.g, w) == 2;
    assert Put(t1.g, Pair(1, 0), 3) == [[2, 0, 0], [3, 1, 1], [0, 0, 1]] by {
      assert t1.g[1][0 := 3] == [3, 1, 1];
    }
    var t2 := Burn([[2, 0, 0], [3, 1, 1], [0, 0, 1]], [Pair(1, 0)]);
    assert Expand(t1, w, NextRow(w), true, true) == t2;
    var t3 := Burn([[2, 0, 0], [3, 1, 1], [0, 0, 1]], [Pair(1, 0)]);
    assert Expand(t2, w, NextCol(w), true, true) == t3;
    var t4 := Burn([[2, 0, 0], [3, 1, 1], [0, 0, 1]], [Pair(1, 0)]);
    assert Expand(t3, w, PrevCol(w), true, true) == t4;
    ExpandAllFour(t0, w, EarlyBranches(w, 3));
  }

  lemma WitnessStep1()
    ensures EarlyStep(WitnessState(1)) == WitnessState(2)
  {
    var w := Pair(1, 0);
    var t0 := Burn([[2, 0, 0], [3, 1, 1], [0, 0, 1]], []);
    var t1 := Burn([[2, 0, 0], [3, 1, 1], [0, 0, 1]], []);
    assert Expand(t0, w, PrevRow(w), true, true) == t1;
    var t2 := Burn([[2, 0, 0], [3, 1, 1], [0, 0, 1]], []);
    assert Expand(t1, w, NextRow(w), true, true) == t2;
    assert At(t2.g, Pair(1, 1)) == 1 && At(t2.g, w) == 3;
    assert Put(t2.g, Pair(1, 1), 4) == [[2, 0, 0], [3, 4, 1], [0, 0, 1]] by {
      assert t2.g[1][1 := 4] == [3, 4, 1];
    }
    var t3 := Burn([[2, 0, 0], [3, 4, 1], [0, 0, 1]], [Pair(1, 1)]);
    assert Expand(t2, w, NextCol(w), true, true) == t3;
    var t4 := Burn([[2, 0, 0], [3, 4, 1], [0, 0, 1]], [Pair(1, 1)]);
    assert Expand(t3, w, PrevCol(w), true, true) == t4;
    ExpandAllFour(t0, w, EarlyBranches(w, 3));
  }

  lemma WitnessStep2()
    ensures EarlyStep(WitnessState(2)) == WitnessState(3)
  {
    var w := Pair(1, 1);
    var t0 := Burn([[2, 0, 0], [3, 4, 1], [0, 0, 1]], []);
    var t1 := Burn([[2, 0, 0], [3, 4, 1], [0, 0, 1]], []);
    assert Expand(t0, w, PrevRow(w), true, true) == t1;
    var t2 := Burn([[2, 0, 0], [3, 4, 1], [0, 0, 1]], []);
    assert Expand(t1, w, NextRow(w), true, true) == t2;
    assert At(t2.g, Pair(1, 2)) == 1 && At(t2.g, w) == 4;
    var t3 := Burn([[2, 0, 0], [3, 4, 1], [0, 0, 1]], [Pair(1, 2)]);
    assert Expand(t2, w, NextCol(w), true, false) == t3;
    var t4 := Burn([[2, 0, 0], [3, 4, 1], [0, 0, 1]], [Pair(1, 2)]);
    assert Expand(t3, w, PrevCol(w), true, true) == t4;
    ExpandAllFour(t0, w, EarlyBranches(w, 3));
  }

  lemma WitnessStep3()
    ensures EarlyStep(WitnessState(3)) == WitnessState(4)
  {
    var w := Pair(1, 2);
    var t0 := Burn([[2, 0, 0], [3, 4, 1], [0, 0, 1]], []);
    var t1 := Burn([[2, 0, 0], [3, 4, 1], [0, 0, 1]], []);
    assert Expand(t0, w, PrevRow(w), true, true) == t1;
    assert At(t1.g, Pair(2, 2)) == 1 && At(t1.g, w) == 1;
    assert Put(t1.g, Pair(2, 2), 2) == [[2, 0, 0], [3, 4, 1], [0, 0, 2]] by {
      assert t1.g[2][2 := 2] == [0, 0, 2];
    }
    var t2 := Burn([[2, 0, 0], [3, 4, 1], [0, 0, 2]], [Pair(2, 2)]);
    assert Expand(t1, w, NextRow(w), true, true) == t2;
    var t3 := Burn([[2, 0, 0], [3, 4, 1], [0, 0, 2]], [Pair(2, 2)]);
    assert Expand(t2, w, NextCol(w), true, true) == t3;
    var t4 := Burn([[2, 0, 0], [3, 4, 1], [0, 0, 2]], [Pair(2, 2)]);
    assert Expand(t3, w, PrevCol(w), true, true) == t4;
    ExpandAllFour(t0, w, EarlyBranches(w, 3));
  }

  lemma WitnessStep4()
    ensures EarlyStep(WitnessState(4)) == WitnessState(5)
  {
    var w := Pair(2, 2);
    var t0 := Burn([[2, 0, 0], [3, 4, 1], [0, 0, 2]], []);
    assert At(t0.g, Pair(1, 2)) == 1 && At(t0.g, w) == 2;
    assert Put(t0.g, Pair(1, 2), 3) == [[2, 0, 0], [3, 4, 3], [0, 0, 2]] by {
      assert t0.g[1][2 := 3] == [3, 4, 3];
    }
    var t1 := Burn([[2, 0, 0], [3, 4, 3], [0, 0, 2]], [Pair(1, 2)]);
    assert Expand(t0, w, PrevRow(w), true, true) == t1;
    var t2 := Burn([[2, 0, 0], [3, 4, 3], [0, 0, 2]], [Pair(1, 2)]);
    assert Expand(t1, w, NextRow(w), true, true) == t2;
    var t3 := Burn([[2, 0, 0], [3, 4, 3], [0, 0, 2]], [Pair(1, 2)]);
    assert Expand(t2, w, NextCol(w), true, true) == t3;
    var t4 := Burn([[2, 0, 0], [3, 4, 3], [0, 0, 2]], [Pair(1, 2)]);
    assert Expand(t3, w, PrevCol(w), true, true) == t4;
    ExpandAllFour(t0, w, EarlyBranches(w, 3));
  }

  lemma WitnessStep5()
    ensures EarlyStep(WitnessState(5)) == WitnessState(6)
  {
    var w := Pair(1, 2);
    var t0 := Burn([[2, 0, 0], [3, 4, 3], [0, 0, 2]], []);
    var t1 := Burn([[2, 0, 0], [3, 4, 3], [0, 0, 2]], []);
    assert Expand(t0, w, PrevRow(w), true, true) == t1;
    var t2 := Burn([[2, 0, 0], [3, 4, 3], [0, 0, 2]], []);
    assert Expand(t1, w, NextRow(w), true, true) == t2;
    var t3 := Burn([[2, 0, 0], [3, 4, 3], [0, 0, 2]], []);
    assert Expand(t2, w, NextCol(w), true, true) == t3;
    var t4 := Burn([[2, 0, 0], [3, 4, 3], [0, 0, 2]], []);
    assert Expand(t3, w, PrevCol(w), true, true) == t4;
    ExpandAllFour(t0, w, EarlyBranches(w, 3));
  }

  /** `Witness` percolates, along a path of 5 sites. */
  lemma WitnessSpans()
    ensures Spanning(Witness(), [Pair(0, 0), Pair(1, 0), Pair(1, 1), Pair(1, 2), Pair(2, 2)])
  {
    var p := [Pair(0, 0), Pair(1, 0), Pair(1, 1), Pair(1, 2), Pair(2, 2)];
    assert forall k :: 0 <= k < |p| ==> Occupied(Witness(), p[k]);
    assert forall k :: 0 <= k < |p| - 1 ==> Adjacent(p[k], p[k + 1]);
  }

  /** Along a path, the k-th site is at most k steps from the first. */
  lemma {:induction false} PathSteps(g: Grid, p: seq<Pair>, k: nat)
    requires IsPath(g, p) && k < |p|
    ensures Distance(p[0], p[k]) <= k
  {
    if k > 0 {
      PathSteps(g, p, k - 1);
      assert Adjacent(p[k - 1], p[k]);
    }
  }

  /** The number of unit steps between two sites. */
  function Distance(a: Pair, b: Pair): nat {
    (if a.x <= b.x then b.x - a.x else a.x - b.x) + (if a.y <= b.y then b.y - a.y else a.y - b.y)
  }

  /**
   * The shortest spanning path of `Witness` has 5 sites: the only occupied
   * sites of the first and last rows are (0, 0) and (2, 2), four steps apart.
   */
  lemma WitnessShortest()
    ensures ShortestSpanning(Witness(), 5)
  {
    var g := Witness();
    WitnessSpans();
    forall p | Spanning(g, p)
      ensures 5 <= |p|
    {
      var a, b := p[0], p[|p| - 1];
      assert Occupied(g, a) && Occupied(g, b);
      assert a == Pair(0, 0) by {
        assert a.y == 0 || a.y == 1 || a.y == 2;
      }
      assert b == Pair(2, 2) by {
        assert b.y == 0 || b.y == 1 || b.y == 2;
      }
      PathSteps(g, p, |p| - 1);
    }
  }

  /** The early loop stops on `Witness` with the last row [0, 0, 2]. */
  lemma WitnessFinal(n: nat, h: Grid)
    requires EarlyRun(Seeded(Witness()), n) == Burn(h, [])
    ensures h == [[2, 0, 0], [3, 4, 3], [0, 0, 2]]
  {
    WitnessRun(n);
  }

  /** The scan of the final last row [0, 0, 2] returns 1. */
  lemma WitnessScan(r: int)
    requires ScanResult([0, 0, 2], r)
    ensures r == 1
  {
    var row := [0, 0, 2];
    assert 1 < row[2] < IntMax;
  }

  /**
   * Run to completion on `Witness`, the early method reports r == 1 (the
   * last row ends as [0, 0, 2]), although the lattice percolates and its
   * shortest spanning path has 5 sites.
   */
  lemma EarlyReportsTooShort(n: nat, h: Grid, r: int)
    requires EarlyRun(Seeded(Witness()), n) == Burn(h, []) && |h| == 3
    requires ScanResult(h[2], r)
    ensures r == 1 && Percolates(Witness())
    ensures forall p :: Spanning(Witness(), p) ==> r < |p|
    ensures !ShortestSpanning(Witness(), r) && ShortestSpanning(Witness(), 5)
  {
    WitnessFinal(n, h);
    WitnessScan(r);
    var g := Witness();
    WitnessSpans();
    WitnessShortest();
  }
}
