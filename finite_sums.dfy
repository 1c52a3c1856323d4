/**
 * Sums over finite sets, and how a sum over a set splits along the classes
 * of a key: the arithmetic behind the cluster-size histogram.
 */
module FiniteSums {

  /** The sum of `f` over the elements of `X`. */
  ghost function Sum<T>(X: set<T>, f: T -> int): int
    decreases |X|
  {
    if X == {} then 0 else var x :| x in X; f(x) + Sum(X - {x}, f)
  }

  /** The elements of `X` whose key is `s`. */
  ghost function Class<T>(X: set<T>, key: T -> int, s: int): set<T> {
    set x | x in X && key(x) == s
  }

  /** The elements of `X` whose key lies in `S`. */
  ghost function Within<T>(X: set<T>, key: T -> int, S: set<int>): set<T> {
    set x | x in X && key(x) in S
  }

  /** The size of each class, as a function of the key. */
  ghost function ClassSize<T>(X: set<T>, key: T -> int): int -> int {
    v => |Class(X, key, v)|
  }

  /** Each key times the size of its class. */
  ghost function ClassWeight<T>(X: set<T>, key: T -> int): int -> int {
    v => v * |Class(X, key, v)|
  }

  /** Any element can be taken out first. */
  lemma SumRemove<T>(X: set<T>, f: T -> int, x: T)
    requires x in X
    ensures Sum(X, f) == f(x) + Sum(X - {x}, f)
    decreases |X|
  {
    var y :| y in X && Sum(X, f) == f(y) + Sum(X - {y}, f);
    if y != x {
      SumRemove(X - {y}, f, x);
      SumRemove(X - {x}, f, y);
      assert X - {y} - {x} == X - {x} - {y};
    }
  }

  lemma {:induction false} SumUnion<T>(X: set<T>, Y: set<T>, f: T -> int)
    requires X !! Y
    ensures Sum(X + Y, f) == Sum(X, f) + Sum(Y, f)
    decreases |X|
  {
    if X == {} {
      assert X + Y == Y;
    } else {
      var x :| x in X;
      var rest := X - {x};
      assert (X + Y) - {x} == rest + Y;
      SumUnion(rest, Y, f);
      SumRemove(X + Y, f, x);
      SumRemove(X, f, x);
    }
  }

  lemma {:induction false} SumConstant<T>(X: set<T>, f: T -> int, c: int)
    requires forall x :: x in X ==> f(x) == c
    ensures Sum(X, f) == c * |X|
    decreases |X|
  {
    if X != {} {
      var x :| x in X;
      SumRemove(X, f, x);
      SumConstant(X - {x}, f, c);
    }
  }

  lemma {:induction false} SumAgree<T>(X: set<T>, f: T -> int, g: T -> int)
    requires forall x :: x in X ==> f(x) == g(x)
    ensures Sum(X, f) == Sum(X, g)
    decreases |X|
  {
    if X != {} {
      var x :| x in X;
      SumRemove(X, f, x);
      SumRemove(X, g, x);
      SumAgree(X - {x}, f, g);
    }
  }

  /** Taking out the class of `s` leaves the elements keyed in the other keys. */
  lemma WithinSplit<T>(X: set<T>, key: T -> int, S: set<int>, s: int)
    requires s in S
    ensures Within(X, key, S) == Within(X, key, S - {s}) + Class(X, key, s)
    ensures Within(X, key, S - {s}) !! Class(X, key, s)
  {
  }

  /** Some element of a non-empty set. */
  lemma Pick<T>(S: set<T>) returns (x: T)
    requires S != {}
    ensures x in S
  {
    x :| x in S;
  }

  /** Counting the elements class by class counts each element once. */
  lemma {:induction false} ClassSizes<T>(X: set<T>, key: T -> int, S: set<int>)
    ensures Sum(S, ClassSize(X, key)) == |Within(X, key, S)|
    decreases |S|
  {
    if S == {} {
      assert Within(X, key, S) == {};
    } else {
      var k := Pick(S);
      SumRemove(S, ClassSize(X, key), k);
      ClassSizes(X, key, S - {k});
      WithinSplit(X, key, S, k);
    }
  }

  /** Adding up key times class size over the keys adds up the key of every element. */
  lemma {:induction false} ClassWeights<T>(X: set<T>, key: T -> int, S: set<int>)
    ensures Sum(S, ClassWeight(X, key)) == Sum(Within(X, key, S), key)
    decreases |S|
  {
    if S == {} {
      assert Within(X, key, S) == {};
    } else {
      var k := Pick(S);
      SumRemove(S, ClassWeight(X, key), k);
      ClassWeights(X, key, S - {k});
      WithinSplit(X, key, S, k);
      SumUnion(Within(X, key, S - {k}), Class(X, key, k), key);
      SumConstant(Class(X, key, k), key, k);
    }
  }
}
