/**
 * Pieces of the burning method (`shortestPathInModel`) that both versions of
 * the lattice model share: the loop state, one neighbour branch of the loop
 * body, the seeding of row 0, the final minimum scan of the last row, and the
 * spanning paths whose length the method reports.
 */
module Burning {
  import opened Lattice

  /** Java's `Integer.MAX_VALUE`, the start value of the minimum scan. */
  const IntMax: int := 0x7fff_ffff

  /** State of the burning loop: the lattice and the FIFO queue of sites. */
  datatype Burn = Burn(g: Grid, q: seq<Pair>)

  /**
   * One neighbour branch of the loop body run for site `w`: when `n` lies on
   * the lattice and still holds exactly 1, relabel it with `+=` the value of
   * `w` (if `relabel`) and append it to the queue (if `enqueue`).
   */
  function Expand(s: Burn, w: Pair, n: Pair, enqueue: bool, relabel: bool): Burn {
    if InGrid(s.g, n) && At(s.g, n) == 1 then
      Burn(if relabel then Put(s.g, n, At(s.g, n) + At(s.g, w)) else s.g,
           if enqueue then s.q + [n] else s.q)
    else s
  }

  /** A branch keeps the shape of the lattice. */
  lemma ExpandShape(s: Burn, w: Pair, n: Pair, enqueue: bool, relabel: bool)
    ensures var t := Expand(s, w, n, enqueue, relabel);
      |t.g| == |s.g| && forall i :: 0 <= i < |s.g| ==> |t.g[i]| == |s.g[i]|
  {
  }

  /** A branch appends `n` to the queue exactly when it enqueues and `n` still holds 1. */
  lemma ExpandQueue(s: Burn, w: Pair, n: Pair, enqueue: bool, relabel: bool)
    ensures Expand(s, w, n, enqueue, relabel).q == s.q + if enqueue && InGrid(s.g, n) && At(s.g, n) == 1 then [n] else []
  {
  }

  /** A branch changes at most the site `n`, to the value of `w` plus 1. */
  lemma ExpandAt(s: Burn, w: Pair, n: Pair, enqueue: bool, relabel: bool, d: Pair)
    requires n != w
    ensures At(Expand(s, w, n, enqueue, relabel).g, d) ==
      if d == n && relabel && InGrid(s.g, n) && At(s.g, n) == 1 then At(s.g, w) + 1 else At(s.g, d)
  {
  }

  /**
   * A branch that relabels the site it tests does not increase the number of
   * 1s plus the queue length, and one that relabels a site lowers the 1s.
   */
  lemma ExpandBudget(s: Burn, w: Pair, n: Pair, enqueue: bool, relabel: bool)
    requires At(s.g, w) >= 1
    ensures var t := Expand(s, w, n, enqueue, relabel);
      Ones(t.g) + |t.q| <= Ones(s.g) + |s.q| + (if enqueue && !relabel then 1 else 0) &&
      Ones(t.g) <= Ones(s.g) &&
      (relabel && InGrid(s.g, n) && At(s.g, n) == 1 ==> Ones(t.g) < Ones(s.g))
  {
    if InGrid(s.g, n) && At(s.g, n) == 1 && relabel {
      OnesPut(s.g, n, At(s.g, n) + At(s.g, w));
    }
  }

  // ----- The neighbour branches of one iteration, run in order.

  /** A neighbour branch: the neighbour it tests and whether it enqueues and relabels it. */
  datatype Branch = Branch(n: Pair, enqueue: bool, relabel: bool)

  /** The branches `bs` of the iteration for site `w`, run one after the other. */
  function ExpandAll(s: Burn, w: Pair, bs: seq<Branch>): Burn
    decreases |bs|
  {
    if bs == [] then s else ExpandAll(Expand(s, w, bs[0].n, bs[0].enqueue, bs[0].relabel), w, bs[1..])
  }

  /** The branches test pairwise different neighbours, none of them `w` itself. */
  predicate Distinct(w: Pair, bs: seq<Branch>) {
    (forall i :: 0 <= i < |bs| ==> bs[i].n != w) &&
    (forall i, j :: 0 <= i < j < |bs| ==> bs[i].n != bs[j].n)
  }

  /** Some branch of `bs` relabels site `d`. */
  predicate Relabels(bs: seq<Branch>, d: Pair) {
    exists i :: 0 <= i < |bs| && bs[i].n == d && bs[i].relabel
  }

  /** Some branch of `bs` enqueues site `d`, which holds 1 on lattice `g`. */
  predicate Enqueues(g: Grid, bs: seq<Branch>, d: Pair) {
    InGrid(g, d) && At(g, d) == 1 && exists i :: 0 <= i < |bs| && bs[i].n == d && bs[i].enqueue
  }

  /** The sites the branches `bs` append to the queue, in order, judged on the lattice before them. */
  function Enqueued(g: Grid, bs: seq<Branch>): seq<Pair>
    decreases |bs|
  {
    if bs == [] then [] else
    (if bs[0].enqueue && InGrid(g, bs[0].n) && At(g, bs[0].n) == 1 then [bs[0].n] else []) + Enqueued(g, bs[1..])
  }

  lemma {:induction false} ExpandAllShape(s: Burn, w: Pair, bs: seq<Branch>)
    ensures var t := ExpandAll(s, w, bs);
      |t.g| == |s.g| && forall i :: 0 <= i < |s.g| ==> |t.g[i]| == |s.g[i]|
    decreases |bs|
  {
    if bs != [] {
      ExpandShape(s, w, bs[0].n, bs[0].enqueue, bs[0].relabel);
      ExpandAllShape(Expand(s, w, bs[0].n, bs[0].enqueue, bs[0].relabel), w, bs[1..]);
    }
  }

  /** An iteration's branches give each site they relabel the value of `w` plus 1 and leave every other site alone. */
  lemma {:induction false} ExpandAllAt(s: Burn, w: Pair, bs: seq<Branch>, d: Pair)
    requires Distinct(w, bs)
    ensures At(ExpandAll(s, w, bs).g, d) ==
      if Relabels(bs, d) && InGrid(s.g, d) && At(s.g, d) == 1 then At(s.g, w) + 1 else At(s.g, d)
    decreases |bs|
  {
    if bs != [] {
      var b := bs[0];
      var s1 := Expand(s, w, b.n, b.enqueue, b.relabel);
      DistinctTail(w, bs);
      ExpandAllAt(s1, w, bs[1..], d);
      ExpandShape(s, w, b.n, b.enqueue, b.relabel);
      ExpandAt(s, w, b.n, b.enqueue, b.relabel, w);
      ExpandAt(s, w, b.n, b.enqueue, b.relabel, d);
      if d != b.n {
        if Relabels(bs, d) {
          var i :| 0 <= i < |bs| && bs[i].n == d && bs[i].relabel;
          assert bs[1..][i - 1] == bs[i];
        }
        if Relabels(bs[1..], d) {
          var i :| 0 <= i < |bs[1..]| && bs[1..][i].n == d && bs[1..][i].relabel;
          assert bs[i + 1] == bs[1..][i];
        }
      }
    }
  }

  lemma DistinctTail(w: Pair, bs: seq<Branch>)
    requires bs != [] && Distinct(w, bs)
    ensures Distinct(w, bs[1..])
  {
    forall i, j | 0 <= i < j < |bs[1..]|
      ensures bs[1..][i].n != bs[1..][j].n
    {
      assert bs[1..][i] == bs[i + 1] && bs[1..][j] == bs[j + 1];
    }
  }

  /** Branches judge only the sites they test: lattices that agree there enqueue the same sites. */
  lemma {:induction false} EnqueuedAgree(g: Grid, h: Grid, bs: seq<Branch>)
    requires |g| == |h| && forall i :: 0 <= i < |bs| ==> At(g, bs[i].n) == At(h, bs[i].n)
    ensures Enqueued(g, bs) == Enqueued(h, bs)
    decreases |bs|
  {
    if bs != [] {
      assert forall i :: 0 <= i < |bs[1..]| ==> bs[1..][i] == bs[i + 1];
      EnqueuedAgree(g, h, bs[1..]);
    }
  }

  /**
   * After the first branch the later ones still test distinct sites, and
   * since the first leaves those sites alone they enqueue the same sites as
   * before it: the queue grows by `Enqueued` of all the branches.
   */
  lemma FirstBranch(s: Burn, w: Pair, bs: seq<Branch>)
    requires bs != [] && Distinct(w, bs)
    ensures Distinct(w, bs[1..])
    ensures var s1 := Expand(s, w, bs[0].n, bs[0].enqueue, bs[0].relabel);
      s1.q + Enqueued(s1.g, bs[1..]) == s.q + Enqueued(s.g, bs)
  {
    var b := bs[0];
    DistinctTail(w, bs);
    FirstBranchAgrees(s, w, bs);
    ExpandQueue(s, w, b.n, b.enqueue, b.relabel);
    var a := if b.enqueue && InGrid(s.g, b.n) && At(s.g, b.n) == 1 then [b.n] else [];
    var rest := Enqueued(s.g, bs[1..]);
    assert Enqueued(s.g, bs) == a + rest;
    ConcatAssoc(s.q, a, rest);
  }

  lemma ConcatAssoc(a: seq<Pair>, b: seq<Pair>, c: seq<Pair>)
    ensures (a + b) + c == a + (b + c)
  {
  }

  /** The first branch leaves alone the sites the later ones test, so they enqueue the same sites after it. */
  lemma FirstBranchAgrees(s: Burn, w: Pair, bs: seq<Branch>)
    requires bs != [] && Distinct(w, bs)
    ensures Enqueued(Expand(s, w, bs[0].n, bs[0].enqueue, bs[0].relabel).g, bs[1..]) == Enqueued(s.g, bs[1..])
  {
    var b := bs[0];
    var s1 := Expand(s, w, b.n, b.enqueue, b.relabel);
    ExpandShape(s, w, b.n, b.enqueue, b.relabel);
    forall i | 0 <= i < |bs[1..]|
      ensures At(s1.g, bs[1..][i].n) == At(s.g, bs[1..][i].n)
    {
      assert bs[1..][i] == bs[i + 1];
      ExpandAt(s, w, b.n, b.enqueue, b.relabel, bs[1..][i].n);
    }
    EnqueuedAgree(s1.g, s.g, bs[1..]);
  }

  /** An iteration's branches append exactly `Enqueued` to the queue. */
  lemma {:induction false} ExpandAllQueue(s: Burn, w: Pair, bs: seq<Branch>)
    requires Distinct(w, bs)
    ensures ExpandAll(s, w, bs).q == s.q + Enqueued(s.g, bs)
    decreases |bs|
  {
    if bs != [] {
      var s1 := Expand(s, w, bs[0].n, bs[0].enqueue, bs[0].relabel);
      FirstBranch(s, w, bs);
      ExpandAllQueue(s1, w, bs[1..]);
      assert ExpandAll(s, w, bs) == ExpandAll(s1, w, bs[1..]);
    }
  }

  /** A site is in `Enqueued` exactly when some branch enqueues it. */
  lemma {:induction false} EnqueuedIff(g: Grid, bs: seq<Branch>, d: Pair)
    ensures d in Enqueued(g, bs) <==> Enqueues(g, bs, d)
    decreases |bs|
  {
    if bs != [] {
      EnqueuedIff(g, bs[1..], d);
      if Enqueues(g, bs, d) && d != bs[0].n {
        var i :| 0 <= i < |bs| && bs[i].n == d && bs[i].enqueue;
        assert bs[1..][i - 1] == bs[i];
      }
      if Enqueues(g, bs[1..], d) {
        var i :| 0 <= i < |bs[1..]| && bs[1..][i].n == d && bs[1..][i].enqueue;
        assert bs[i + 1] == bs[1..][i];
      }
    }
  }

  /** When every branch relabels, the 1s plus the queue length do not grow. */
  lemma {:induction false} ExpandAllBudget(s: Burn, w: Pair, bs: seq<Branch>)
    requires Distinct(w, bs) && At(s.g, w) >= 1
    requires forall i :: 0 <= i < |bs| ==> bs[i].relabel
    ensures Ones(ExpandAll(s, w, bs).g) + |ExpandAll(s, w, bs).q| <= Ones(s.g) + |s.q|
    decreases |bs|
  {
    if bs != [] {
      var b := bs[0];
      var s1 := Expand(s, w, b.n, b.enqueue, b.relabel);
      DistinctTail(w, bs);
      ExpandBudget(s, w, b.n, b.enqueue, b.relabel);
      ExpandAt(s, w, b.n, b.enqueue, b.relabel, w);
      assert forall i :: 0 <= i < |bs[1..]| ==> bs[1..][i] == bs[i + 1];
      ExpandAllBudget(s1, w, bs[1..]);
    }
  }

  /** The branch `Expand`, run on the array in place. */
  method ExpandInPlace(model: array2<int>, q: seq<Pair>, w: Pair, n: Pair, enqueue: bool, relabel: bool)
      returns (q': seq<Pair>)
    requires model.Length0 == model.Length1
    requires 0 <= w.x < model.Length0 && 0 <= w.y < model.Length1
    modifies model
    ensures Burn(Snapshot(model), q') == Expand(Burn(old(Snapshot(model)), q), w, n, enqueue, relabel)
  {
    q' := q;
    if 0 <= n.x < model.Length0 && 0 <= n.y < model.Length1 && model[n.x, n.y] == 1 {
      SnapshotAt(model, n);
      SnapshotAt(model, w);
      if relabel {
        Write(model, n, model[n.x, n.y] + model[w.x, w.y]);
      }
      if enqueue {
        q' := q + [n];
      }
    } else if 0 <= n.x < model.Length0 && 0 <= n.y < model.Length1 {
      SnapshotAt(model, n);
    }
  }

  // ----- Seeding: every site of row 0 that holds 1 becomes 2 and is enqueued.

  /** The queue after the seeding loop has looked at the first `n` sites of row 0. */
  function SeedQueue(g: Grid, n: nat): seq<Pair> {
    if n == 0 then [] else
    SeedQueue(g, n - 1) + (if At(g, Pair(0, n - 1)) == 1 then [Pair(0, n - 1)] else [])
  }

  /** The lattice after the seeding loop has looked at the first `n` sites of row 0. */
  function SeedGrid(g: Grid, n: nat): Grid {
    if n == 0 then g else
    var h := SeedGrid(g, n - 1);
    if At(g, Pair(0, n - 1)) == 1 then Put(h, Pair(0, n - 1), 2) else h
  }

  /** The state in which the burning loop starts. */
  function Seeded(g: Grid): Burn {
    Burn(SeedGrid(g, |g|), SeedQueue(g, |g|))
  }

  lemma {:induction false} SeedGridAt(g: Grid, n: nat, c: Pair)
    ensures |SeedGrid(g, n)| == |g|
    ensures forall i :: 0 <= i < |g| ==> |SeedGrid(g, n)[i]| == |g[i]|
    ensures At(SeedGrid(g, n), c) == if c.x == 0 && 0 <= c.y < n && At(g, c) == 1 then 2 else At(g, c)
  {
    if n > 0 {
      SeedGridAt(g, n - 1, c);
      SeedGridAt(g, n - 1, Pair(0, n - 1));
    }
  }

  lemma {:induction false} SeedQueueHas(g: Grid, n: nat, c: Pair)
    ensures c in SeedQueue(g, n) <==> c.x == 0 && 0 <= c.y < n && At(g, c) == 1
  {
    if n > 0 {
      SeedQueueHas(g, n - 1, c);
    }
  }

  /** The seeding loop: every site of row 0 holding 1 becomes 2 and is enqueued, left to right. */
  method SeedRow(model: array2<int>) returns (queue: seq<Pair>)
    requires model.Length0 == model.Length1 >= 1
    modifies model
    ensures Snapshot(model) == SeedGrid(old(Snapshot(model)), model.Length0)
    ensures queue == SeedQueue(old(Snapshot(model)), model.Length0)
  {
    ghost var g0 := Snapshot(model);
    queue := [];
    for i := 0 to model.Length0
      invariant Snapshot(model) == SeedGrid(g0, i) && queue == SeedQueue(g0, i)
    {
      SnapshotAt(model, Pair(0, i));
      SeedGridAt(g0, i, Pair(0, i));
      if model[0, i] == 1 {
        Write(model, Pair(0, i), 2);
        queue := queue + [Pair(0, i)];
      }
    }
  }

  // ----- Counting the sites that hold exactly 1 (occupied and not yet burnt).

  function RowOnes(r: seq<int>): nat {
    if r == [] then 0 else RowOnes(r[..|r| - 1]) + (if r[|r| - 1] == 1 then 1 else 0)
  }

  function Ones(g: Grid): nat {
    if g == [] then 0 else Ones(g[..|g| - 1]) + RowOnes(g[|g| - 1])
  }

  lemma {:induction false} RowOnesPut(r: seq<int>, y: int, v: int)
    requires 0 <= y < |r| && r[y] == 1 && v != 1
    ensures RowOnes(r[y := v]) + 1 == RowOnes(r)
  {
    var r' := r[y := v];
    if y < |r| - 1 {
      assert r'[..|r| - 1] == r[..|r| - 1][y := v];
      RowOnesPut(r[..|r| - 1], y, v);
    } else {
      assert r'[..|r| - 1] == r[..|r| - 1];
    }
  }

  /** Burning one site that held 1 lowers the count of such sites by one. */
  lemma {:induction false} OnesPut(g: Grid, c: Pair, v: int)
    requires At(g, c) == 1 && v != 1
    ensures Ones(Put(g, c, v)) + 1 == Ones(g)
  {
    var h := Put(g, c, v);
    assert h == g[c.x := g[c.x][c.y := v]];
    if c.x < |g| - 1 {
      assert h[..|g| - 1] == Put(g[..|g| - 1], c, v);
      OnesPut(g[..|g| - 1], c, v);
    } else {
      assert h[..|g| - 1] == g[..|g| - 1];
      RowOnesPut(g[c.x], c.y, v);
    }
  }

  lemma {:induction false} RowOnesBound(r: seq<int>)
    ensures RowOnes(r) <= |r|
  {
    if r != [] {
      RowOnesBound(r[..|r| - 1]);
    }
  }

  lemma {:induction false} OnesBound(g: Grid, width: nat)
    requires forall i :: 0 <= i < |g| ==> |g[i]| == width
    ensures Ones(g) <= |g| * width
  {
    if g != [] {
      var init := g[..|g| - 1];
      assert forall i :: 0 <= i < |init| ==> init[i] == g[i];
      OnesBound(init, width);
      RowOnesBound(g[|g| - 1]);
      OneMoreRow(|init|, width);
    }
  }

  lemma OneMoreRow(k: nat, width: nat)
    ensures (k + 1) * width == k * width + width
  {
  }

  /** Seeding moves each 1 of row 0 from the lattice count into the queue. */
  lemma {:induction false} SeedBudget(g: Grid, n: nat)
    ensures |SeedQueue(g, n)| + Ones(SeedGrid(g, n)) == Ones(g)
  {
    if n > 0 {
      SeedBudget(g, n - 1);
      if At(g, Pair(0, n - 1)) == 1 {
        SeedGridAt(g, n - 1, Pair(0, n - 1));
        OnesPut(SeedGrid(g, n - 1), Pair(0, n - 1), 2);
      }
    }
  }

  // ----- The final minimum scan of the last row.

  /**
   * `r` is what the scan returns for last row `row`: 0 when no site of the
   * row holds a value in 2 .. IntMax - 1, otherwise the least such value minus 1.
   */
  ghost predicate ScanResult(row: seq<int>, r: int) {
    (r == 0 <==> forall j :: 0 <= j < |row| ==> !(1 < row[j] < IntMax)) &&
    (r != 0 ==>
      (exists j :: 0 <= j < |row| && row[j] == r + 1 && 1 < row[j] < IntMax) &&
      (forall j :: 0 <= j < |row| && 1 < row[j] < IntMax ==> r + 1 <= row[j]))
  }

  /** The minimum scan over the last row, as the source writes it. */
  method ScanLastRow(model: array2<int>) returns (r: int)
    requires model.Length0 >= 1
    ensures ScanResult(Snapshot(model)[model.Length0 - 1], r)
  {
    var min := IntMax;
    var lastRowIndex := model.Length0 - 1;
    var j := 0;
    while j < model.Length1
      invariant 0 <= j <= model.Length1
      invariant 1 < min <= IntMax
      invariant forall k :: 0 <= k < j && 1 < model[lastRowIndex, k] < IntMax ==> min <= model[lastRowIndex, k]
      invariant min < IntMax ==> exists k :: 0 <= k < j && model[lastRowIndex, k] == min
    {
      var b := model[lastRowIndex, j];
      if b > 1 && b < min {
        min := b;
      }
      j := j + 1;
    }
    r := if min == IntMax then 0 else min - 1;
  }

  // ----- Spanning paths.

  /** A path from row 0 that meets the last row at most at its final site. */
  ghost predicate ReachingPath(g: Grid, p: seq<Pair>) {
    IsPath(g, p) && p[0].x == 0 && forall k :: 0 <= k < |p| - 1 ==> p[k].x != |g| - 1
  }

  /** Some reaching path of `n` sites ends at `c`. */
  ghost predicate Reaches(g: Grid, c: Pair, n: int) {
    exists p :: ReachingPath(g, p) && p[|p| - 1] == c && |p| == n
  }

  /** A path of occupied sites from row 0 to the last row. */
  ghost predicate Spanning(g: Grid, p: seq<Pair>) {
    IsPath(g, p) && p[0].x == 0 && p[|p| - 1].x == |g| - 1
  }

  ghost predicate Percolates(g: Grid) {
    exists p :: Spanning(g, p)
  }

  /** `r` is the number of sites of a shortest spanning path. */
  ghost predicate ShortestSpanning(g: Grid, r: int) {
    (exists p :: Spanning(g, p) && |p| == r) && forall p :: Spanning(g, p) ==> r <= |p|
  }

  lemma ShortestUnique(g: Grid, r1: int, r2: int)
    requires ShortestSpanning(g, r1) && ShortestSpanning(g, r2)
    ensures r1 == r2
  {
    var p1 :| Spanning(g, p1) && |p1| == r1;
    var p2 :| Spanning(g, p2) && |p2| == r2;
  }

  /** Every spanning path starts with a reaching path that is no longer and ends on the last row. */
  lemma SpanningPrefix(g: Grid, p: seq<Pair>) returns (p': seq<Pair>)
    requires Spanning(g, p)
    ensures ReachingPath(g, p') && p'[|p'| - 1].x == |g| - 1 && |p'| <= |p|
  {
    var m := 0;
    while p[m].x != |g| - 1
      invariant 0 <= m < |p|
      invariant forall k :: 0 <= k < m ==> p[k].x != |g| - 1
      decreases |p| - m
    {
      m := m + 1;
    }
    p' := p[..m + 1];
  }

  /** Along a path the row index changes by at most one per site. */
  lemma {:induction false} RowClimb(g: Grid, p: seq<Pair>, k: nat)
    requires IsPath(g, p) && k < |p|
    ensures p[k].x <= p[0].x + k
  {
    if k > 0 {
      RowClimb(g, p, k - 1);
      assert Adjacent(p[k - 1], p[k]);
    }
  }

  /** A spanning path has at least one site per row. */
  lemma SpanningLength(g: Grid, p: seq<Pair>)
    requires Spanning(g, p)
    ensures |p| >= |g|
  {
    RowClimb(g, p, |p| - 1);
  }

  /** On a fully occupied lattice the shortest spanning path is one column: L sites. */
  lemma AllOccupiedShortest(g: Grid)
    requires Square(g) && |g| >= 1
    requires forall c :: InGrid(g, c) ==> At(g, c) == 1
    ensures ShortestSpanning(g, |g|)
  {
    var column := seq(|g|, k requires 0 <= k < |g| => Pair(k, 0));
    assert forall k :: 0 <= k < |column| ==> InGrid(g, column[k]);
    assert Spanning(g, column);
    forall p | Spanning(g, p)
      ensures |g| <= |p|
    {
      SpanningLength(g, p);
    }
  }
}
