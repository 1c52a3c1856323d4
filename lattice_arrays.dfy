/**
 * Making lattices: an empty L x L lattice, a copy of a lattice, and a
 * lattice occupied site by site from a matrix of draws. The source draws
 * `rand.nextDouble()` and compares it with the occupation probability; the
 * outcomes of those comparisons are an input here.
 */
module LatticeArrays {
  import opened Lattice

  /** Every site of `g` is vacant. */
  ghost predicate Empty(g: Grid) {
    forall c :: InGrid(g, c) ==> At(g, c) == 0
  }

  ghost predicate SquareDraws(draws: seq<seq<bool>>) {
    forall i :: 0 <= i < |draws| ==> |draws[i]| == |draws|
  }

  /** The lattice the draws describe: site (i, j) is occupied when draw (i, j) succeeded. */
  ghost predicate Drawn(g: Grid, draws: seq<seq<bool>>) {
    |g| == |draws| && SquareDraws(draws) &&
    forall c {:trigger At(g, c)} :: InGrid(g, c) ==> At(g, c) == if draws[c.x][c.y] then 1 else 0
  }

  /** `getEmptyModel`: a fresh L x L lattice whose rows are all reset to vacant sites. */
  method GetEmptyModel(L: nat) returns (model: array2<int>)
    ensures fresh(model) && model.Length0 == L && model.Length1 == L
    ensures forall x, y :: 0 <= x < L && 0 <= y < L ==> model[x, y] == 0
    ensures Empty(Snapshot(model))
  {
    model := new int[L, L];
    var i := 0;
    while i < L
      invariant 0 <= i <= L
      invariant forall x, y :: 0 <= x < i && 0 <= y < L ==> model[x, y] == 0
    {
      var j := 0;
      while j < L
        invariant 0 <= j <= L
        invariant forall x, y :: 0 <= x < i && 0 <= y < L ==> model[x, y] == 0
        invariant forall y :: 0 <= y < j ==> model[i, y] == 0
      {
        model[i, j] := 0;
        j := j + 1;
      }
      i := i + 1;
    }
  }

  /**
   * `arrayCopy`: a fresh lattice holding the same sites, copied row by row.
   * Being a different array, later writes to it leave the source alone.
   */
  method ArrayCopy(source: array2<int>) returns (destination: array2<int>)
    requires source.Length0 == source.Length1
    ensures fresh(destination) && destination != source
    ensures destination.Length0 == source.Length0 && destination.Length1 == source.Length1
    ensures Snapshot(destination) == Snapshot(source)
  {
    var L := source.Length0;
    destination := new int[L, L];
    var i := 0;
    while i < L
      invariant 0 <= i <= L
      invariant forall x, y :: 0 <= x < i && 0 <= y < L ==> destination[x, y] == source[x, y]
    {
      var j := 0;
      while j < L
        invariant 0 <= j <= L
        invariant forall x, y :: 0 <= x < i && 0 <= y < L ==> destination[x, y] == source[x, y]
        invariant forall y :: 0 <= y < j ==> destination[i, y] == source[i, y]
      {
        destination[i, j] := source[i, j];
        j := j + 1;
      }
      i := i + 1;
    }
    assert forall x :: 0 <= x < L ==> Snapshot(destination)[x] == Snapshot(source)[x];
  }

  /**
   * `generateLatticeModel`: start from an empty lattice and occupy (set to 1)
   * every site whose draw succeeded.
   */
  method GenerateLatticeModel(L: nat, draws: seq<seq<bool>>) returns (model: array2<int>)
    requires |draws| == L && SquareDraws(draws)
    ensures fresh(model) && model.Length0 == L && model.Length1 == L
    ensures Drawn(Snapshot(model), draws) && Binary(Snapshot(model))
  {
    model := GetEmptyModel(L);
    var i := 0;
    while i < L
      invariant 0 <= i <= L
      invariant forall x, y :: 0 <= x < L && 0 <= y < L ==>
        model[x, y] == if x < i && draws[x][y] then 1 else 0
    {
      var j := 0;
      while j < L
        invariant 0 <= j <= L
        invariant forall x, y :: 0 <= x < L && 0 <= y < L ==>
          model[x, y] == if (x < i || (x == i && y < j)) && draws[x][y] then 1 else 0
      {
        if draws[i][j] {
          model[i, j] := 1;
        }
        j := j + 1;
      }
      i := i + 1;
    }
  }
}
