/**
 * The loop of the later burning method (`shortestPathInModel`) as a
 * function of its state: one iteration polls the head of the queue and runs
 * the four neighbour branches. Over a 0/1 lattice the iterations keep a
 * breadth-first invariant, from which the scan of the last row is the
 * number of sites of a shortest spanning path, or 0.
 */
module BurningIterations {
  import opened Lattice
  import opened Burning

  /** Largest side for which L * L + 2 stays below Java's `Integer.MAX_VALUE`. */
  const MaxSide: int := 46340

  /**
   * The four neighbour branches of the iteration for site `w` on an L x L
   * lattice, in the order of the loop body. A neighbour on the last row
   * reached from the row above is relabelled but not enqueued.
   */
  function Branches(w: Pair, L: int): seq<Branch> {
    [Branch(PrevRow(w), true, true), Branch(NextRow(w), w.x + 1 != L - 1, true),
     Branch(NextCol(w), true, true), Branch(PrevCol(w), true, true)]
  }

  /** One iteration of the loop: poll the head site and run its four branches. */
  function BurnStep(s: Burn): Burn {
    if s.q == [] then s else ExpandAll(Burn(s.g, s.q[1..]), s.q[0], Branches(s.q[0], |s.g|))
  }

  /** The state after `n` iterations of the loop. */
  function Run(s: Burn, n: nat): Burn {
    if n == 0 then s else BurnStep(Run(s, n - 1))
  }

  /** Site `d` is a neighbour of `w` that still holds 1: the iteration for `w` burns it. */
  ghost predicate Fresh(g: Grid, w: Pair, d: Pair) {
    Adjacent(w, d) && InGrid(g, d) && At(g, d) == 1
  }

  /** The four branches relabel exactly the neighbours and enqueue all of them but a last-row one reached from above. */
  lemma BranchesFacts(g: Grid, w: Pair, d: Pair)
    ensures Distinct(w, Branches(w, |g|))
    ensures Relabels(Branches(w, |g|), d) <==> Adjacent(w, d)
    ensures Enqueues(g, Branches(w, |g|), d) <==> Fresh(g, w, d) && (d == NextRow(w) ==> w.x + 1 != |g| - 1)
  {
    var bs := Branches(w, |g|);
    if Adjacent(w, d) {
      if d == PrevRow(w) {
        assert bs[0].n == d;
      } else if d == NextRow(w) {
        assert bs[1].n == d;
      } else if d == NextCol(w) {
        assert bs[2].n == d;
      } else {
        assert bs[3].n == d;
      }
    }
  }

  /**
   * What one iteration does to the lattice: every fresh neighbour of the head
   * site `w` gets the value of `w` plus 1, and nothing else changes.
   */
  lemma StepAt(s: Burn)
    requires Square(s.g) && s.q != []
    ensures Square(BurnStep(s).g) && |BurnStep(s).g| == |s.g|
    ensures forall d ::
      (At(BurnStep(s).g, d) == if Fresh(s.g, s.q[0], d) then At(s.g, s.q[0]) + 1 else At(s.g, d))
  {
    var w := s.q[0];
    var s0 := Burn(s.g, s.q[1..]);
    ExpandAllShape(s0, w, Branches(w, |s.g|));
    forall d
      ensures At(BurnStep(s).g, d) == if Fresh(s.g, w, d) then At(s.g, w) + 1 else At(s.g, d)
    {
      BranchesFacts(s.g, w, d);
      ExpandAllAt(s0, w, Branches(w, |s.g|), d);
    }
  }

  /**
   * What one iteration does to the queue: it loses the head site `w` and
   * gains exactly the fresh neighbours of `w`, except a last-row one reached
   * from the row above.
   */
  lemma StepQueue(s: Burn) returns (added: seq<Pair>)
    requires s.q != []
    ensures BurnStep(s).q == s.q[1..] + added
    ensures forall d :: d in added <==> Fresh(s.g, s.q[0], d) && (d == NextRow(s.q[0]) ==> s.q[0].x + 1 != |s.g| - 1)
  {
    var w := s.q[0];
    BranchesFacts(s.g, w, w);
    ExpandAllQueue(Burn(s.g, s.q[1..]), w, Branches(w, |s.g|));
    added := Enqueued(s.g, Branches(w, |s.g|));
    forall d
      ensures d in added <==> Fresh(s.g, w, d) && (d == NextRow(w) ==> w.x + 1 != |s.g| - 1)
    {
      BranchesFacts(s.g, w, d);
      EnqueuedIff(s.g, Branches(w, |s.g|), d);
    }
  }

  /** Every iteration removes the head and burns every site it enqueues. */
  lemma StepBudget(s: Burn)
    requires s.q != [] && At(s.g, s.q[0]) >= 1
    ensures Ones(BurnStep(s).g) + |BurnStep(s).q| < Ones(s.g) + |s.q|
  {
    var w := s.q[0];
    BranchesFacts(s.g, w, w);
    ExpandAllBudget(Burn(s.g, s.q[1..]), w, Branches(w, |s.g|));
  }

  // ----- Invariants of the loop.

  /** Queue values never decrease from head to tail and exceed the head's by at most 1. */
  ghost predicate Layered(g: Grid, q: seq<Pair>) {
    (forall i, j :: 0 <= i < j < |q| ==> At(g, q[i]) <= At(g, q[j])) &&
    (forall i :: 0 <= i < |q| ==> At(g, q[i]) <= At(g, q[0]) + 1)
  }

  /** A burnt site off the last row that has left the queue has no neighbour still holding 1. */
  ghost predicate Closed(g: Grid, q: seq<Pair>) {
    forall c {:trigger At(g, c)} :: InGrid(g, c) && At(g, c) >= 2 && c.x != |g| - 1 && c !in q ==>
      At(g, PrevRow(c)) != 1 && At(g, NextRow(c)) != 1 && At(g, PrevCol(c)) != 1 && At(g, NextCol(c)) != 1
  }

  /** A burnt site holding v is the end of a reaching path of v - 1 sites. */
  ghost predicate Sound(g0: Grid, g: Grid) {
    forall c :: InGrid(g, c) && At(g, c) >= 2 ==> Reaches(g0, c, At(g, c) - 1)
  }

  /** A burnt site holding v is the end of no reaching path shorter than v - 1 sites. */
  ghost predicate Optimal(g0: Grid, g: Grid) {
    forall p :: ReachingPath(g0, p) && At(g, p[|p| - 1]) >= 2 ==> At(g, p[|p| - 1]) - 1 <= |p|
  }

  /** Every occupied site of row 0 holds the seed value 2. */
  ghost predicate Seeds(g0: Grid, g: Grid) {
    forall c {:trigger At(g, c)} :: InGrid(g0, c) && c.x == 0 && At(g0, c) == 1 ==> At(g, c) == 2
  }

  /** After `n` iterations no site holds more than n + 2. */
  ghost predicate Bounded(g0: Grid, g: Grid, n: nat) {
    forall c :: InGrid(g0, c) ==> At(g, c) <= n + 2
  }

  /** On a lattice of two or more rows no queued site lies on the last row. */
  ghost predicate OffLastRow(L: int, q: seq<Pair>) {
    forall k :: 0 <= k < |q| ==> (L >= 2 ==> q[k].x != L - 1)
  }

  /**
   * What holds after `n` iterations for any square input: only sites holding
   * 1 change, and they become at least 2; queued sites are burnt; and the
   * iterations so far, the queue and the remaining 1s together number at most L * L.
   */
  ghost predicate Frame(g0: Grid, s: Burn, n: nat) {
    var L := |g0|;
    Square(s.g) && |s.g| == L &&
    (forall c :: InGrid(g0, c) && At(g0, c) != 1 ==> At(s.g, c) == At(g0, c)) &&
    (forall c :: InGrid(g0, c) && At(g0, c) == 1 ==> At(s.g, c) == 1 || At(s.g, c) >= 2) &&
    (forall k :: 0 <= k < |s.q| ==> InGrid(g0, s.q[k]) && At(s.g, s.q[k]) >= 2) &&
    n + |s.q| + Ones(s.g) <= L * L
  }

  /** The breadth-first invariant, for a 0/1 input lattice. */
  ghost predicate Inv(g0: Grid, s: Burn, n: nat) {
    Binary(g0) && |g0| >= 1 && Frame(g0, s, n) && Seeds(g0, s.g) && Bounded(g0, s.g, n) &&
    OffLastRow(|g0|, s.q) && Layered(s.g, s.q) && Closed(s.g, s.q) && Sound(g0, s.g) && Optimal(g0, s.g)
  }

  lemma InitFrame(g0: Grid)
    requires Square(g0) && |g0| >= 1
    ensures Frame(g0, Seeded(g0), 0)
  {
    var s := Seeded(g0);
    forall c {:trigger At(s.g, c)}
      ensures At(s.g, c) == if c.x == 0 && 0 <= c.y < |g0| && At(g0, c) == 1 then 2 else At(g0, c)
    {
      SeedGridAt(g0, |g0|, c);
    }
    SeedGridAt(g0, |g0|, Pair(0, 0));
    forall k | 0 <= k < |s.q|
      ensures InGrid(g0, s.q[k]) && At(s.g, s.q[k]) >= 2
    {
      SeedQueueHas(g0, |g0|, s.q[k]);
    }
    SeedBudget(g0, |g0|);
    OnesBound(g0, |g0|);
  }

  lemma InitInv(g0: Grid)
    requires Binary(g0) && |g0| >= 1
    ensures Inv(g0, Seeded(g0), 0)
  {
    InitFrame(g0);
    var s := Seeded(g0);
    forall c {:trigger At(s.g, c)}
      ensures At(s.g, c) == if c.x == 0 && 0 <= c.y < |g0| && At(g0, c) == 1 then 2 else At(g0, c)
    {
      SeedGridAt(g0, |g0|, c);
    }
    forall c | InGrid(s.g, c) && At(s.g, c) >= 2
      ensures c in s.q && Reaches(g0, c, At(s.g, c) - 1)
    {
      SeedQueueHas(g0, |g0|, c);
      assert ReachingPath(g0, [c]);
    }
    forall k | 0 <= k < |s.q|
      ensures s.q[k].x == 0 && At(s.g, s.q[k]) == 2
    {
      SeedQueueHas(g0, |g0|, s.q[k]);
    }
  }

  /** One iteration keeps the general frame. */
  lemma StepFrame(g0: Grid, s: Burn, n: nat)
    requires Frame(g0, s, n) && s.q != []
    ensures Frame(g0, BurnStep(s), n + 1)
  {
    StepAt(s);
    StepBudget(s);
    StepQueueBurnt(g0, s, n);
  }

  /** After an iteration every queued site is still a burnt site of the lattice. */
  lemma StepQueueBurnt(g0: Grid, s: Burn, n: nat)
    requires Frame(g0, s, n) && s.q != []
    ensures var t := BurnStep(s);
      forall k :: 0 <= k < |t.q| ==> InGrid(g0, t.q[k]) && At(t.g, t.q[k]) >= 2
  {
    var added := StepQueue(s);
    var t := BurnStep(s);
    forall k | 0 <= k < |t.q|
      ensures InGrid(g0, t.q[k]) && At(t.g, t.q[k]) >= 2
    {
      assert t.q[k] in s.q[1..] || t.q[k] in added;
      QueuedSiteBurnt(g0, s, n, t.q[k]);
    }
  }

  /** A site left in the queue or burnt by the iteration holds at least 2 after it. */
  lemma QueuedSiteBurnt(g0: Grid, s: Burn, n: nat, d: Pair)
    requires Frame(g0, s, n) && s.q != []
    requires d in s.q[1..] || Fresh(s.g, s.q[0], d)
    ensures InGrid(g0, d) && At(BurnStep(s).g, d) >= 2
  {
    StepAt(s);
    if d in s.q[1..] {
      var k :| 0 <= k < |s.q[1..]| && s.q[1..][k] == d;
      assert s.q[k + 1] == d;
    }
  }

  /** `t` is what one iteration makes of `s`, described site by site. */
  ghost predicate Stepped(s: Burn, t: Burn, added: seq<Pair>) {
    s.q != [] && Square(t.g) && |t.g| == |s.g| &&
    (forall d :: (At(t.g, d) == if Fresh(s.g, s.q[0], d) then At(s.g, s.q[0]) + 1 else At(s.g, d))) &&
    t.q == s.q[1..] + added &&
    (forall d :: d in added <==> Fresh(s.g, s.q[0], d) && (d == NextRow(s.q[0]) ==> s.q[0].x + 1 != |s.g| - 1))
  }

  /** On a single row every occupied site is a seed, so no site holds 1. */
  lemma NoOnesOnOneRow(g0: Grid, s: Burn, n: nat, c: Pair)
    requires Binary(g0) && |g0| == 1 && Frame(g0, s, n) && Seeds(g0, s.g)
    ensures At(s.g, c) != 1
  {
    if InGrid(g0, c) {
      assert c.x == 0;
    }
  }

  /** One iteration keeps the seeds, the value bound and the queue off the last row. */
  lemma StepValues(g0: Grid, s: Burn, t: Burn, added: seq<Pair>, n: nat)
    requires Frame(g0, s, n) && Stepped(s, t, added)
    requires Seeds(g0, s.g) && Bounded(g0, s.g, n) && OffLastRow(|g0|, s.q)
    ensures Seeds(g0, t.g) && Bounded(g0, t.g, n + 1) && OffLastRow(|g0|, t.q)
  {
    var L, w := |g0|, s.q[0];
    assert InGrid(g0, w);
    forall k | 0 <= k < |t.q| && L >= 2
      ensures t.q[k].x != L - 1
    {
      if k < |s.q| - 1 {
        assert t.q[k] == s.q[k + 1];
      } else {
        var d := t.q[k];
        assert d == added[k - |s.q| + 1];
        assert Fresh(s.g, w, d) && (d == NextRow(w) ==> w.x + 1 != L - 1);
        assert w.x != L - 1;
      }
    }
  }

  /** One iteration keeps the queue layered: its new sites all hold the head's value plus 1. */
  lemma StepLayered(g0: Grid, s: Burn, t: Burn, added: seq<Pair>, n: nat)
    requires Frame(g0, s, n) && Stepped(s, t, added) && Layered(s.g, s.q)
    ensures Layered(t.g, t.q)
  {
    var v := At(s.g, s.q[0]);
    forall k | 0 <= k < |t.q|
      ensures v <= At(t.g, t.q[k]) <= v + 1
      ensures k >= |s.q| - 1 ==> At(t.g, t.q[k]) == v + 1
    {
      if k < |s.q| - 1 {
        assert t.q[k] == s.q[k + 1];
      } else {
        assert t.q[k] == added[k - |s.q| + 1];
      }
    }
    forall i, j | 0 <= i < j < |t.q|
      ensures At(t.g, t.q[i]) <= At(t.g, t.q[j])
    {
      if j < |s.q| - 1 {
        assert t.q[i] == s.q[i + 1] && t.q[j] == s.q[j + 1];
      }
    }
  }

  /** One iteration keeps every burnt site that left the queue closed. */
  lemma StepClosed(g0: Grid, s: Burn, t: Burn, added: seq<Pair>, n: nat)
    requires Frame(g0, s, n) && Stepped(s, t, added) && Closed(s.g, s.q)
    ensures Closed(t.g, t.q)
  {
    var L, w := |g0|, s.q[0];
    forall c {:trigger At(t.g, c)} | InGrid(t.g, c) && At(t.g, c) >= 2 && c.x != L - 1 && c !in t.q
      ensures At(t.g, PrevRow(c)) != 1 && At(t.g, NextRow(c)) != 1
      ensures At(t.g, PrevCol(c)) != 1 && At(t.g, NextCol(c)) != 1
    {
      if c != w {
        assert !Fresh(s.g, w, c);
        assert c !in s.q;
      }
    }
  }

  /** One iteration keeps every burnt value witnessed by a reaching path. */
  lemma StepSound(g0: Grid, s: Burn, t: Burn, added: seq<Pair>, n: nat)
    requires Binary(g0) && Frame(g0, s, n) && Stepped(s, t, added)
    requires Seeds(g0, s.g) && OffLastRow(|g0|, s.q) && Sound(g0, s.g)
    ensures Sound(g0, t.g)
  {
    var L, w := |g0|, s.q[0];
    var v := At(s.g, w);
    forall c | InGrid(t.g, c) && At(t.g, c) >= 2
      ensures Reaches(g0, c, At(t.g, c) - 1)
    {
      if Fresh(s.g, w, c) {
        if L == 1 {
          NoOnesOnOneRow(g0, s, n, c);
        }
        assert InGrid(g0, w) && At(s.g, w) >= 2;
        ExtendReach(g0, w, c, v - 1);
      } else {
        assert At(t.g, c) == At(s.g, c);
      }
    }
  }

  /** A reaching path to `w` off the last row extends by one site to an occupied neighbour. */
  lemma ExtendReach(g0: Grid, w: Pair, c: Pair, k: int)
    requires Reaches(g0, w, k) && w.x != |g0| - 1 && Adjacent(w, c) && Occupied(g0, c)
    ensures Reaches(g0, c, k + 1)
  {
    var p :| ReachingPath(g0, p) && p[|p| - 1] == w && |p| == k;
    var p' := p + [c];
    assert IsPath(g0, p');
    assert ReachingPath(g0, p');
  }

  /** Walking a reaching path from its burnt start to its end holding 1 meets a queued site followed by a site holding 1. */
  lemma FirstFresh(g0: Grid, s: Burn, n: nat, p: seq<Pair>) returns (m: nat)
    requires Binary(g0) && Frame(g0, s, n) && Seeds(g0, s.g) && Closed(s.g, s.q)
    requires ReachingPath(g0, p) && At(s.g, p[|p| - 1]) == 1
    ensures m < |p| - 1 && At(s.g, p[m]) >= 2 && At(s.g, p[m + 1]) == 1
    ensures ReachingPath(g0, p[..m + 1]) && p[m] in s.q
  {
    assert Occupied(g0, p[0]);
    m := 0;
    while At(s.g, p[m + 1]) != 1
      invariant m < |p| - 1 && At(s.g, p[m]) >= 2
      decreases |p| - m
    {
      assert Occupied(g0, p[m + 1]);
      m := m + 1;
    }
    assert Adjacent(p[m], p[m + 1]);
    assert IsPath(g0, p[..m + 1]);
  }

  /** A site still holding 1 is the end of no reaching path shorter than the head's value. */
  lemma LowerBound(g0: Grid, s: Burn, n: nat, p: seq<Pair>)
    requires Binary(g0) && Frame(g0, s, n) && Seeds(g0, s.g) && Closed(s.g, s.q)
    requires Layered(s.g, s.q) && Optimal(g0, s.g)
    requires s.q != [] && ReachingPath(g0, p) && At(s.g, p[|p| - 1]) == 1
    ensures |p| >= At(s.g, s.q[0])
  {
    var m := FirstFresh(g0, s, n, p);
    var k :| 0 <= k < |s.q| && s.q[k] == p[m];
    assert At(s.g, s.q[0]) <= At(s.g, s.q[k]);
    assert At(s.g, p[m]) - 1 <= |p[..m + 1]|;
  }

  /** One iteration keeps every burnt value a lower bound on the reaching paths to its site. */
  lemma StepOptimal(g0: Grid, s: Burn, t: Burn, added: seq<Pair>, n: nat)
    requires Binary(g0) && Frame(g0, s, n) && Stepped(s, t, added)
    requires Seeds(g0, s.g) && Closed(s.g, s.q) && Layered(s.g, s.q) && Optimal(g0, s.g)
    ensures Optimal(g0, t.g)
  {
    forall p | ReachingPath(g0, p) && At(t.g, p[|p| - 1]) >= 2
      ensures At(t.g, p[|p| - 1]) - 1 <= |p|
    {
      if Fresh(s.g, s.q[0], p[|p| - 1]) {
        LowerBound(g0, s, n, p);
      }
    }
  }

  /** One iteration keeps the breadth-first invariant. */
  lemma StepInv(g0: Grid, s: Burn, n: nat)
    requires Inv(g0, s, n) && s.q != []
    ensures Inv(g0, BurnStep(s), n + 1)
  {
    var t := BurnStep(s);
    StepAt(s);
    var added := StepQueue(s);
    assert Stepped(s, t, added);
    StepFrame(g0, s, n);
    StepValues(g0, s, t, added, n);
    StepLayered(g0, s, t, added, n);
    StepClosed(g0, s, t, added, n);
    StepSound(g0, s, t, added, n);
    StepOptimal(g0, s, t, added, n);
  }

  /** An iteration on an empty queue changes nothing, so a nonempty queue was nonempty before. */
  lemma StillQueued(s0: Burn, n: nat)
    requires n >= 2 && Run(s0, n - 1).q != []
    ensures Run(s0, n - 2).q != []
  {
    var s := Run(s0, n - 2);
    assert Run(s0, n - 1) == BurnStep(s);
  }

  /** Iteration n keeps the invariant of iteration n - 1. */
  lemma NextInv(g0: Grid, n: nat)
    requires n >= 1 && Inv(g0, Run(Seeded(g0), n - 1), n - 1) && Run(Seeded(g0), n - 1).q != []
    ensures Inv(g0, Run(Seeded(g0), n), n)
  {
    var s := Run(Seeded(g0), n - 1);
    StepInv(g0, s, n - 1);
    assert Run(Seeded(g0), n) == BurnStep(s);
  }

  /** For any square input the loop keeps the frame; in particular it stops within L * L iterations. */
  lemma {:induction false} RunFrame(g0: Grid, n: nat)
    requires Square(g0) && |g0| >= 1
    requires n == 0 || Run(Seeded(g0), n - 1).q != []
    ensures Frame(g0, Run(Seeded(g0), n), n)
  {
    if n == 0 {
      InitFrame(g0);
    } else {
      if n >= 2 {
        StillQueued(Seeded(g0), n);
      }
      var s := Run(Seeded(g0), n - 1);
      RunFrame(g0, n - 1);
      StepFrame(g0, s, n - 1);
      assert Run(Seeded(g0), n) == BurnStep(s);
    }
  }

  /** What the loop needs of the frame: the queue lies on the lattice and the iterations are bounded. */
  lemma RunBound(g0: Grid, n: nat)
    requires Square(g0) && |g0| >= 1
    requires n == 0 || Run(Seeded(g0), n - 1).q != []
    ensures var s := Run(Seeded(g0), n);
      n + |s.q| <= |g0| * |g0| && forall k :: 0 <= k < |s.q| ==> InGrid(g0, s.q[k])
  {
    RunFrame(g0, n);
  }

  /** Once the queue is empty, every reaching path ends at a burnt site. */
  lemma Complete(g0: Grid, s: Burn, n: nat, p: seq<Pair>)
    requires Binary(g0) && Frame(g0, s, n) && Seeds(g0, s.g) && Closed(s.g, s.q)
    requires s.q == [] && ReachingPath(g0, p)
    ensures At(s.g, p[|p| - 1]) >= 2
  {
    assert Occupied(g0, p[|p| - 1]);
    if At(s.g, p[|p| - 1]) == 1 {
      var m := FirstFresh(g0, s, n, p);
    }
  }

  /** On a lattice of side at most `MaxSide`, L * L + 2 stays below Java's `Integer.MAX_VALUE`. */
  lemma SquareBound(L: nat)
    requires L <= MaxSide
    ensures L * L + 2 < IntMax
  {
    MulLe(L, MaxSide, L);
    MulLe(L, MaxSide, MaxSide);
  }

  lemma {:induction false} MulLe(a: nat, b: nat, c: nat)
    requires a <= b
    ensures a * c <= b * c
  {
    if c > 0 {
      MulLe(a, b, c - 1);
      assert a * c == a * (c - 1) + a && b * c == b * (c - 1) + b;
    }
  }

  /** The scan of the last row finds a value no larger than any spanning path's length plus 1. */
  lemma ScanBelowSpanning(g0: Grid, s: Burn, n: nat, r: int, p: seq<Pair>)
    requires Binary(g0) && 1 <= |g0| <= MaxSide && Frame(g0, s, n) && Seeds(g0, s.g) && Closed(s.g, s.q)
    requires Bounded(g0, s.g, n) && Optimal(g0, s.g) && s.q == []
    requires ScanResult(s.g[|g0| - 1], r) && Spanning(g0, p)
    ensures r != 0 && r <= |p|
  {
    var L := |g0|;
    SquareBound(L);
    var p' := SpanningPrefix(g0, p);
    Complete(g0, s, n, p');
    var c := p'[|p'| - 1];
    assert s.g[L - 1][c.y] == At(s.g, c);
  }

  /** A last-row value found by the scan is the end of a spanning path of r sites. */
  lemma ScanWitness(g0: Grid, s: Burn, r: int)
    requires Square(s.g) && |s.g| == |g0| >= 1 && Sound(g0, s.g)
    requires ScanResult(s.g[|g0| - 1], r) && r != 0
    ensures exists p :: Spanning(g0, p) && |p| == r
  {
    var L := |g0|;
    var row := s.g[L - 1];
    var j :| 0 <= j < |row| && row[j] == r + 1 && 1 < row[j] < IntMax;
    var c := Pair(L - 1, j);
    assert At(s.g, c) == r + 1;
    var p :| ReachingPath(g0, p) && p[|p| - 1] == c && |p| == r;
    assert Spanning(g0, p);
  }

  /**
   * What the burning method reports: when the loop has stopped after `n`
   * iterations, the scan result `r` is 0 exactly when no spanning path
   * exists, and otherwise the number of sites of a shortest spanning path.
   */
  lemma Outcome(g0: Grid, s: Burn, n: nat, r: int)
    requires Inv(g0, s, n) && s.q == [] && |g0| <= MaxSide
    requires ScanResult(s.g[|g0| - 1], r)
    ensures r == 0 <==> !Percolates(g0)
    ensures r != 0 ==> ShortestSpanning(g0, r)
  {
    forall p | Spanning(g0, p)
      ensures r != 0 && r <= |p|
    {
      ScanBelowSpanning(g0, s, n, r, p);
    }
    if r != 0 {
      ScanWitness(g0, s, r);
    }
  }
}
