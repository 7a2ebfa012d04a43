/** Sorting as the standard library does it: by a relation that says which of two elements may come first,
    keeping the old order where both may. */
module Sorting {

  predicate InOrder<T>(xs: seq<T>, first: (T, T) -> bool) {
    forall i :: 0 <= i < |xs| - 1 ==> first(xs[i], xs[i + 1])
  }

  ghost predicate Total<T(!new)>(first: (T, T) -> bool) {
    forall a, b :: first(a, b) || first(b, a)
  }

  ghost predicate Transitive<T(!new)>(first: (T, T) -> bool) {
    forall a, b, c :: first(a, b) && first(b, c) ==> first(a, c)
  }

  function Insert<T>(x: T, xs: seq<T>, first: (T, T) -> bool): (r: seq<T>)
    ensures |r| == |xs| + 1
  {
    if xs == [] || first(x, xs[0]) then [x] + xs else [xs[0]] + Insert(x, xs[1..], first)
  }

  function Sort<T>(xs: seq<T>, first: (T, T) -> bool): (r: seq<T>)
    ensures |r| == |xs|
  {
    if xs == [] then [] else Insert(xs[0], Sort(xs[1..], first), first)
  }

  lemma {:induction false} InsertKeeps<T>(x: T, xs: seq<T>, first: (T, T) -> bool)
    ensures multiset(Insert(x, xs, first)) == multiset{x} + multiset(xs)
  {
    if xs != [] && !first(x, xs[0]) {
      InsertKeeps(x, xs[1..], first);
      assert xs == [xs[0]] + xs[1..];
    }
  }

  lemma {:induction false} InsertInOrder<T(!new)>(x: T, xs: seq<T>, first: (T, T) -> bool)
    requires Total(first) && InOrder(xs, first)
    ensures InOrder(Insert(x, xs, first), first)
    ensures Insert(x, xs, first)[0] == x || (xs != [] && Insert(x, xs, first)[0] == xs[0])
  {
    if xs != [] && !first(x, xs[0]) {
      InsertInOrder(x, xs[1..], first);
    }
  }

  /** Sorting keeps the elements. */
  lemma {:induction false} SortKeeps<T>(xs: seq<T>, first: (T, T) -> bool)
    ensures multiset(Sort(xs, first)) == multiset(xs)
  {
    if xs != [] {
      SortKeeps(xs[1..], first);
      InsertKeeps(xs[0], Sort(xs[1..], first), first);
      assert xs == [xs[0]] + xs[1..];
    }
  }

  /** Sorting by a total relation sorts. */
  lemma {:induction false} SortInOrder<T(!new)>(xs: seq<T>, first: (T, T) -> bool)
    requires Total(first)
    ensures InOrder(Sort(xs, first), first)
  {
    if xs != [] {
      SortInOrder(xs[1..], first);
      InsertInOrder(xs[0], Sort(xs[1..], first), first);
    }
  }

  lemma SortMember<T>(xs: seq<T>, first: (T, T) -> bool, x: T)
    ensures x in Sort(xs, first) <==> x in xs
  {
    SortKeeps(xs, first);
    assert x in Sort(xs, first) <==> x in multiset(Sort(xs, first));
    assert x in xs <==> x in multiset(xs);
  }

  /** Neighbours in order put every pair in order. */
  lemma {:induction false} PairInOrder<T(!new)>(xs: seq<T>, first: (T, T) -> bool, i: nat, j: nat)
    requires Transitive(first) && InOrder(xs, first) && i < j < |xs|
    ensures first(xs[i], xs[j])
    decreases j
  {
    if i < j - 1 {
      PairInOrder(xs, first, i, j - 1);
      assert first(xs[j - 1], xs[j - 1 + 1]);
    }
  }
}
