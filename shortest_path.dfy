/**
 * The burning method of the later version of the lattice model
 * (`shortestPathInModel`): a breadth-first search from every occupied site
 * of row 0 that overwrites each reached site with its distance + 1 and
 * reports the number of sites of a shortest spanning path, or 0.
 */
module ShortestPath {
  import opened Lattice
  import opened Burning
  import opened BurningIterations

  /** The breadth-first invariant holds after iteration n. */
  ghost predicate InvAfter(g0: Grid, n: nat) {
    forall k {:trigger Run(Seeded(g0), k)} :: k == n ==> Inv(g0, Run(Seeded(g0), k), k)
  }

  /** Unpacking the invariant of iteration n. */
  lemma InvOfAfter(g0: Grid, n: nat)
    requires InvAfter(g0, n)
    ensures Inv(g0, Run(Seeded(g0), n), n)
  {
  }

  /** Packing the invariant of iteration n. */
  lemma AfterOfInv(g0: Grid, n: nat)
    requires Inv(g0, Run(Seeded(g0), n), n)
    ensures InvAfter(g0, n)
  {
  }

  /** The seeded state satisfies the invariant. */
  lemma InitAfter(g0: Grid)
    requires Binary(g0) && |g0| >= 1
    ensures InvAfter(g0, 0)
  {
    InitInv(g0);
    AfterOfInv(g0, 0);
  }

  /** Iteration n keeps the invariant of iteration n - 1. */
  lemma RunStepInv(g0: Grid, n: nat)
    requires n >= 1 && InvAfter(g0, n - 1) && Run(Seeded(g0), n - 1).q != []
    ensures InvAfter(g0, n)
  {
    InvOfAfter(g0, n - 1);
    NextInv(g0, n);
    AfterOfInv(g0, n);
  }

  /** The invariant holds after every iteration that the loop performs. */
  lemma {:induction false} RunInv(g0: Grid, n: nat)
    requires Binary(g0) && |g0| >= 1
    requires n == 0 || Run(Seeded(g0), n - 1).q != []
    ensures InvAfter(g0, n)
  {
    if n == 0 {
      InitAfter(g0);
    } else {
      if n >= 2 {
        StillQueued(Seeded(g0), n);
      }
      RunInv(g0, n - 1);
      RunStepInv(g0, n);
    }
  }

  /**
   * When the loop stops after n iterations on a 0/1 lattice of side at most
   * `MaxSide`, the scan of the last row is 0 exactly when the lattice does not
   * percolate, and otherwise the number of sites of a shortest spanning path.
   */
  lemma RunOutcome(g0: Grid, n: nat, h: Grid, r: int)
    requires Binary(g0) && 1 <= |g0| <= MaxSide
    requires n == 0 || Run(Seeded(g0), n - 1).q != []
    requires Run(Seeded(g0), n) == Burn(h, []) && |h| == |g0| && ScanResult(h[|g0| - 1], r)
    ensures r == 0 <==> !Percolates(g0)
    ensures r != 0 ==> ShortestSpanning(g0, r)
  {
    RunInv(g0, n);
    InvOfAfter(g0, n);
    Outcome(g0, Run(Seeded(g0), n), n, r);
  }

  /** The body of the burning loop: poll the head site and run its four branches in place. */
  method BurnIteration(model: array2<int>, queue: seq<Pair>) returns (queue': seq<Pair>)
    requires model.Length0 == model.Length1 && queue != []
    requires 0 <= queue[0].x < model.Length0 && 0 <= queue[0].y < model.Length1
    modifies model
    ensures Burn(Snapshot(model), queue') == BurnStep(Burn(old(Snapshot(model)), queue))
  {
    ghost var s := Burn(Snapshot(model), queue);
    var lastRowIndex := model.Length0 - 1;
    var cell := queue[0];
    ghost var bs := Branches(cell, model.Length0);
    queue' := queue[1..];
    assert ExpandAll(Burn(Snapshot(model), queue'), cell, bs) == BurnStep(s);
    queue' := ExpandInPlace(model, queue', cell, PrevRow(cell), true, true);
    assert ExpandAll(Burn(Snapshot(model), queue'), cell, bs[1..]) == BurnStep(s);
    queue' := ExpandInPlace(model, queue', cell, NextRow(cell), cell.x + 1 != lastRowIndex, true);
    assert ExpandAll(Burn(Snapshot(model), queue'), cell, bs[2..]) == BurnStep(s);
    queue' := ExpandInPlace(model, queue', cell, NextCol(cell), true, true);
    assert ExpandAll(Burn(Snapshot(model), queue'), cell, bs[3..]) == BurnStep(s);
    queue' := ExpandInPlace(model, queue', cell, PrevCol(cell), true, true);
    assert ExpandAll(Burn(Snapshot(model), queue'), cell, bs[4..]) == BurnStep(s);
  }

  /**
   * Java's `shortestPathInModel` of the later version: burns the lattice in
   * place from row 0 and returns the number of sites of a shortest spanning
   * path, or 0 when the lattice does not percolate.
   */
  method ShortestPathInModel(model: array2<int>) returns (r: int, ghost steps: nat)
    requires model.Length0 == model.Length1 >= 1
    modifies model
    ensures Run(Seeded(old(Snapshot(model))), steps) == Burn(Snapshot(model), [])
    ensures steps <= model.Length0 * model.Length0
    ensures ScanResult(Snapshot(model)[model.Length0 - 1], r)
    ensures Binary(old(Snapshot(model))) && model.Length0 <= MaxSide ==>
      (r == 0 <==> !Percolates(old(Snapshot(model)))) &&
      (r != 0 ==> ShortestSpanning(old(Snapshot(model)), r))
  {
    ghost var g0 := Snapshot(model);
    var len := model.Length0;
    var queue := SeedRow(model);
    steps := 0;
    RunBound(g0, 0);
    while queue != []
      invariant Burn(Snapshot(model), queue) == Run(Seeded(g0), steps)
      invariant steps == 0 || Run(Seeded(g0), steps - 1).q != []
      invariant steps + |queue| <= len * len && forall k :: 0 <= k < |queue| ==> InGrid(g0, queue[k])
      decreases len * len - steps
    {
      queue := BurnIteration(model, queue);
      steps := steps + 1;
      RunBound(g0, steps);
    }
    r := ScanLastRow(model);
    if Binary(g0) && len <= MaxSide {
      RunOutcome(g0, steps, Snapshot(model), r);
    }
  }
}
