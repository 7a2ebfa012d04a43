/** The lower quartile that decides which features count as underused. */
module Quartile {
  import opened Sorting

  predicate AtMost(a: int, b: int) {
    a <= b
  }

  /** percentile25; a quarter of a small whole number is exact in floating point. */
  function Percentile25(values: seq<int>): int {
    if values == [] then 0 else Sort(values, AtMost)[(|values| - 1) / 4]
  }

  /** How many of the values are at most q. */
  function HowMany(values: seq<int>, q: int): nat {
    if values == [] then 0 else (if values[0] <= q then 1 else 0) + HowMany(values[1..], q)
  }

  /** q is the value a quarter of the way up: it is at place (n - 1) / 4 when the values stand in order. */
  predicate IsQuarter(values: seq<int>, q: int) {
    q in values && HowMany(values, q - 1) <= (|values| - 1) / 4 < HowMany(values, q)
  }

  lemma {:induction false} HowManyAppend(a: seq<int>, b: seq<int>, q: int)
    ensures HowMany(a + b, q) == HowMany(a, q) + HowMany(b, q)
  {
    if a == [] {
      assert a + b == b;
    } else {
      assert (a + b)[1..] == a[1..] + b;
      HowManyAppend(a[1..], b, q);
    }
  }

  lemma {:induction false} HowManyInsert(x: int, xs: seq<int>, q: int)
    ensures HowMany(Insert(x, xs, AtMost), q) == (if x <= q then 1 else 0) + HowMany(xs, q)
  {
    if xs != [] && !AtMost(x, xs[0]) {
      HowManyInsert(x, xs[1..], q);
      assert ([xs[0]] + Insert(x, xs[1..], AtMost))[1..] == Insert(x, xs[1..], AtMost);
    } else {
      assert ([x] + xs)[1..] == xs;
    }
  }

  lemma {:induction false} HowManySorted(values: seq<int>, q: int)
    ensures HowMany(Sort(values, AtMost), q) == HowMany(values, q)
  {
    if values != [] {
      HowManySorted(values[1..], q);
      HowManyInsert(values[0], Sort(values[1..], AtMost), q);
    }
  }

  lemma {:induction false} HowManyAll(values: seq<int>, q: int)
    requires forall v :: v in values ==> v <= q
    ensures HowMany(values, q) == |values|
  {
    if values != [] {
      assert values[0] in values && forall v :: v in values[1..] ==> v in values;
      HowManyAll(values[1..], q);
    }
  }

  lemma {:induction false} HowManyNone(values: seq<int>, q: int)
    requires forall v :: v in values ==> v > q
    ensures HowMany(values, q) == 0
  {
    if values != [] {
      assert values[0] in values && forall v :: v in values[1..] ==> v in values;
      HowManyNone(values[1..], q);
    }
  }

  lemma {:induction false} HowManyBound(values: seq<int>, q: int)
    ensures HowMany(values, q) <= |values|
  {
    if values != [] { HowManyBound(values[1..], q); }
  }

  lemma {:induction false} HowManyGrows(values: seq<int>, a: int, b: int)
    requires a <= b
    ensures HowMany(values, a) <= HowMany(values, b)
  {
    if values != [] { HowManyGrows(values[1..], a, b); }
  }

  /** Only one value is a quarter of the way up. */
  lemma QuarterUnique(values: seq<int>, p: int, q: int)
    requires IsQuarter(values, p) && IsQuarter(values, q)
    ensures p == q
  {
    if p < q { HowManyGrows(values, p, q - 1); }
    if q < p { HowManyGrows(values, q, p - 1); }
  }

  lemma PercentileIs(values: seq<int>)
    requires values != []
    ensures IsQuarter(values, Percentile25(values))
  {
    hide HowMany, Sort;
    var s, p := Sort(values, AtMost), (|values| - 1) / 4;
    SortKeeps(values, AtMost);
    SortedOrder(values);
    SortMember(values, AtMost, s[p]);
    HowManySorted(values, s[p]);
    HowManySorted(values, s[p] - 1);
    SortedAround(s, p);
  }

  lemma SortedOrder(values: seq<int>)
    ensures var s := Sort(values, AtMost); |s| == |values| && forall i, j :: 0 <= i < j < |s| ==> s[i] <= s[j]
  {
    var s := Sort(values, AtMost);
    SortInOrder(values, AtMost);
    assert Transitive(AtMost);
    hide Sort;
    forall i, j | 0 <= i < j < |s| ensures s[i] <= s[j] { PairInOrder(s, AtMost, i, j); }
  }

  lemma SortedAround(s: seq<int>, p: nat)
    requires (forall i, j :: 0 <= i < j < |s| ==> s[i] <= s[j]) && p < |s|
    ensures HowMany(s, s[p] - 1) <= p < HowMany(s, s[p])
  {
    FewBefore(s, p);
    ManyUpTo(s, p);
  }

  lemma FewBefore(s: seq<int>, p: nat)
    requires (forall i, j :: 0 <= i < j < |s| ==> s[i] <= s[j]) && p < |s|
    ensures HowMany(s, s[p] - 1) <= p
  {
    hide HowMany;
    var (a, b) := (s[..p], s[p..]);
    assert s == a + b;
    forall v | v in b ensures v > s[p] - 1 {
      var k :| 0 <= k < |b| && b[k] == v;
      assert v == s[p + k];
    }
    HowManyAppend(a, b, s[p] - 1);
    HowManyNone(b, s[p] - 1);
    HowManyBound(a, s[p] - 1);
  }

  lemma ManyUpTo(s: seq<int>, p: nat)
    requires (forall i, j :: 0 <= i < j < |s| ==> s[i] <= s[j]) && p < |s|
    ensures p < HowMany(s, s[p])
  {
    hide HowMany;
    var (c, d) := (s[..p + 1], s[p + 1..]);
    assert s == c + d;
    assert forall v :: v in c ==> v <= s[p];
    HowManyAppend(c, d, s[p]);
    HowManyAll(c, s[p]);
  }
}
