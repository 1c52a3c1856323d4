/**
 * The label array of the Hoshen–Kopelman algorithm: a union–find forest
 * stored in one int array. Slot 0 counts the labels handed out so far; slot
 * k (1 <= k <= count) holds the parent of label k, and a label that is its
 * own parent is the canonical label (root) of its class.
 */
module Labels {

  class LabelForest {
    /** Java's `int[] label`. */
    const labels: array<int>
    /** The root of every label's tree (meaningful for 1 .. count). */
    ghost var root: seq<int>
    /** Every label's distance to its root: it falls along parent links. */
    ghost var dist: seq<nat>

    /** The number of labels handed out so far. */
    ghost function Count(): int
      reads labels
      requires labels.Length >= 1
    {
      labels[0]
    }

    ghost predicate Valid()
      reads this, labels
    {
      Forest(labels[..], root, dist)
    }

    /** `new int[cap]`: no labels yet. */
    constructor (cap: nat)
      requires cap >= 1
      ensures Valid() && labels.Length == cap && labels[0] == 0 && fresh(labels)
    {
      labels := new int[cap](_ => 0);
      root := seq(cap, _ => 0);
      dist := seq(cap, _ => 0);
    }

    /**
     * `updateCluster`: hand out the next label as a class of its own. The
     * array must have room for it, or Java's store throws.
     */
    method UpdateCluster() returns (n: int)
      requires Valid() && labels[0] + 1 < labels.Length
      modifies this, labels
      ensures Valid() && n == old(labels[0]) + 1 && labels[0] == n
      ensures root == old(root)[n := n]
      ensures forall k :: 1 <= k < n ==> labels[k] == old(labels[k])
    {
      labels[0] := labels[0] + 1;
      n := labels[0];
      labels[n] := n;
      root := root[n := n];
      dist := dist[n := 0];
    }

    /**
     * `find`: the root of label `i`; every label on the path of parent links
     * from `i` is re-pointed straight at the root, and no other slot changes.
     */
    method Find(i: int) returns (r: int)
      requires Valid() && 1 <= i <= labels[0]
      modifies labels
      ensures Valid() && r == root[i] && labels[0] == old(labels[0]) && labels[i] == r
      ensures forall k :: 1 <= k <= labels[0] ==> labels[k] == old(labels[k]) || labels[k] == root[k]
      ensures forall k :: 0 <= k < labels.Length ==>
        labels[k] == if OnPath(old(labels[..]), dist, i, k) then r else old(labels[k])
    {
      ghost var l0 := labels[..];
      var y := i;
      while labels[y] != y
        invariant 1 <= y <= labels[0] && root[y] == root[i]
        decreases dist[y]
      {
        y := labels[y];
      }
      var j := i;
      while labels[j] != j
        invariant Valid() && labels[0] == old(labels[0])
        invariant 1 <= j <= labels[0] && root[j] == root[i] && y == root[i] && labels[y] == y
        invariant j == i || labels[i] == y
        invariant forall k :: 1 <= k <= labels[0] ==> labels[k] == old(labels[k]) || labels[k] == root[k]
        invariant OnPath(l0, dist, i, j)
        invariant forall k :: 0 <= k < labels.Length ==>
          labels[k] == if OnPath(l0, dist, i, k) && !OnPath(l0, dist, j, k) then y else l0[k]
        decreases dist[j]
      {
        var z := labels[j];
        ghost var before := labels[..];
        PathAdvance(l0, dist, i, j);
        labels[j] := y;
        assert labels[..] == before[j := y];
        Compress(before, root, dist, j);
        j := z;
      }
      PathEnd(l0, dist, i, j);
      r := y;
    }

    /**
     * `unionFind(x, y)`: point the root of `x` at the root of `y`, which it
     * returns. The class of `x` joins the class of `y`; no other class changes.
     */
    method UnionFind(x: int, y: int) returns (r: int)
      requires Valid() && 1 <= x <= labels[0] && 1 <= y <= labels[0]
      modifies this, labels
      ensures Valid() && labels[0] == old(labels[0]) && r == old(root[y])
      ensures |root| == |old(root)|
      ensures forall k :: 1 <= k <= labels[0] ==>
        root[k] == if old(root[k]) == old(root[x]) then old(root[y]) else old(root[k])
    {
      var rx := Find(x);
      var ry := Find(y);
      ghost var before := labels[..];
      labels[rx] := ry;
      if rx != ry {
        assert labels[..] == before[rx := ry];
        Hang(before, root, dist, rx, ry);
        dist := Deepen(root, dist, labels[0], rx);
        root := Reroot(root, labels[0], rx, ry);
      }
      r := ry;
    }
  }

  /** The roots after the class rooted at `rx` is hung under `ry`. */
  ghost function Reroot(root: seq<int>, count: int, rx: int, ry: int): (r: seq<int>)
    ensures |r| == |root|
    ensures forall k :: 0 <= k < |root| ==> r[k] == if 1 <= k <= count && root[k] == rx then ry else root[k]
  {
    seq(|root|, k requires 0 <= k < |root| => if 1 <= k <= count && root[k] == rx then ry else root[k])
  }

  /** The distances after the class rooted at `rx` is hung one level deeper. */
  ghost function Deepen(root: seq<int>, dist: seq<nat>, count: int, rx: int): (r: seq<nat>)
    requires |dist| == |root|
    ensures |r| == |dist|
    ensures forall k :: 0 <= k < |dist| ==> r[k] == if 1 <= k <= count && root[k] == rx then dist[k] + 1 else dist[k]
  {
    seq(|dist|, k requires 0 <= k < |dist| => if 1 <= k <= count && root[k] == rx then dist[k] + 1 else dist[k])
  }

  /**
   * `l` is a label array whose labels 1 .. l[0] form a forest: every parent
   * is a label, `root` names each label's root, and `dist` falls along
   * every parent link that is not a root's own.
   */
  ghost predicate Forest(l: seq<int>, root: seq<int>, dist: seq<nat>) {
    |root| == |l| && |dist| == |l| && |l| >= 1 && 0 <= l[0] < |l| &&
    (forall k {:trigger l[k]} :: 1 <= k <= l[0] ==> 1 <= l[k] <= l[0]) &&
    (forall k {:trigger root[k]} :: 1 <= k <= l[0] ==> 1 <= root[k] <= l[0] && l[root[k]] == root[k]) &&
    (forall k {:trigger l[k]} :: 1 <= k <= l[0] && l[k] == k ==> root[k] == k && dist[k] == 0) &&
    (forall k {:trigger root[l[k]]} {:trigger dist[l[k]]} :: 1 <= k <= l[0] && l[k] != k ==>
      root[l[k]] == root[k] && dist[l[k]] < dist[k])
  }

  /**
   * Label `k` lies on the path of parent links in `l` from label `a` (both
   * ends included); `dist` falls along every link followed.
   */
  ghost predicate OnPath(l: seq<int>, dist: seq<nat>, a: int, k: int)
    decreases if 0 <= a < |dist| then dist[a] else 0
  {
    0 <= a < |l| &&
    (a == k || (l[a] != a && 0 <= l[a] < |l| && |dist| == |l| && dist[l[a]] < dist[a] && OnPath(l, dist, l[a], k)))
  }

  /** A label past `a` on its path is strictly closer to the root than `a`. */
  lemma {:induction false} OnPathDist(l: seq<int>, dist: seq<nat>, a: int, k: int)
    requires OnPath(l, dist, a, k)
    ensures 0 <= k < |l|
    ensures k != a ==> |dist| == |l| && dist[k] < dist[a]
    decreases if 0 <= a < |dist| then dist[a] else 0
  {
    if a != k {
      OnPathDist(l, dist, l[a], k);
    }
  }

  /** The path from `a` through `j` continues with the parent of `j`. */
  lemma {:induction false} OnPathExtend(l: seq<int>, dist: seq<nat>, a: int, j: int)
    requires OnPath(l, dist, a, j)
    requires 0 <= j < |l| && l[j] != j && 0 <= l[j] < |l| && |dist| == |l| && dist[l[j]] < dist[j]
    ensures OnPath(l, dist, a, l[j])
    decreases if 0 <= a < |dist| then dist[a] else 0
  {
    if a != j {
      OnPathExtend(l, dist, l[a], j);
    }
  }

  /**
   * One step of the compressing loop: with the walk from `a` at `j`, the
   * labels behind the walk are those behind it one step later, less `j`.
   */
  lemma PathAdvance(l: seq<int>, dist: seq<nat>, a: int, j: int)
    requires OnPath(l, dist, a, j)
    requires 0 <= j < |l| && l[j] != j && 0 <= l[j] < |l| && |dist| == |l| && dist[l[j]] < dist[j]
    ensures OnPath(l, dist, a, l[j])
    ensures forall k :: (OnPath(l, dist, a, k) && !OnPath(l, dist, l[j], k)) <==>
      ((OnPath(l, dist, a, k) && !OnPath(l, dist, j, k)) || k == j)
  {
    OnPathExtend(l, dist, a, j);
    if OnPath(l, dist, l[j], j) {
      OnPathDist(l, dist, l[j], j);
    }
  }

  /** At a root the walk ends: the labels behind it are the whole path but the root. */
  lemma PathEnd(l: seq<int>, dist: seq<nat>, a: int, j: int)
    requires 0 <= j < |l| && l[j] == j
    ensures forall k :: (OnPath(l, dist, a, k) && !OnPath(l, dist, j, k)) <==> (OnPath(l, dist, a, k) && k != j)
  {
  }

  /** Hanging the root `rx` under the root `ry` keeps a forest. */
  lemma Hang(l: seq<int>, root: seq<int>, dist: seq<nat>, rx: int, ry: int)
    requires Forest(l, root, dist)
    requires 1 <= rx <= l[0] && 1 <= ry <= l[0] && l[rx] == rx && l[ry] == ry && rx != ry
    ensures Forest(l[rx := ry], Reroot(root, l[0], rx, ry), Deepen(root, dist, l[0], rx))
  {
  }

  /** Re-pointing a label that is not a root straight at its root keeps a forest. */
  lemma Compress(l: seq<int>, root: seq<int>, dist: seq<nat>, j: int)
    requires Forest(l, root, dist) && 1 <= j <= l[0] && l[j] != j
    ensures Forest(l[j := root[j]], root, dist)
  {
    var r := root[j];
    assert l[r] == r && root[r] == r && dist[r] == 0;
    assert dist[l[j]] < dist[j];
  }
}
