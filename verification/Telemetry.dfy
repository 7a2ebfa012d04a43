/** Folding old usage events into counted buckets, and the totals that a reader takes from both. */
module Telemetry {
  import opened Lists
  import opened TelemetryKey

  // -------------------------------------------------------------------- folding

  datatype Key = Key(text: string)

  function KeyOf(scope: string, b: Bucket): Key {
    Key(BucketKey(scope, BucketTag(b), b.tabName, b.viewName))
  }

  /** A bucket with one event. */
  function Single(scope: string, e: UsageEvent): Bucket {
    var t := EventTag(e);
    Bucket(t.day, t.hour, e.eventName, e.featureKey, e.tabName, e.viewName, e.categoryIds, 1, Name(scope))
  }

  /** Its day and hour are those of the event's own zone: so many seconds since 1970 there. */
  lemma SingleIs(scope: string, e: UsageEvent)
    ensures var b := Single(scope, e);
            && b == Bucket(b.day, b.hour, e.eventName, e.featureKey, e.tabName, e.viewName, e.categoryIds, 1,
                           Name(scope))
            && 0 <= b.hour < 24
            && 0 <= e.timestamp + 60 * e.offsetMinutes - (86400 * b.day + 3600 * b.hour) < 3600
  {
    var local := LocalSeconds(e.timestamp, e.offsetMinutes);
    var d, m := local / 86400, local % 86400;
    assert local == d * 86400 + m && m == m / 3600 * 3600 + m % 3600;
  }

  /** The key of the bucket that an event is counted in. */
  function EventKey(scope: string, e: UsageEvent): Key {
    KeyOf(scope, Single(scope, e))
  }

  /** The place of the first bucket with this key, or |bs|. */
  function Place(scope: string, bs: seq<Bucket>, key: Key): (i: nat)
    ensures i <= |bs|
    ensures i < |bs| ==> KeyOf(scope, bs[i]) == key
    ensures forall j :: 0 <= j < i ==> KeyOf(scope, bs[j]) != key
  {
    hide KeyOf;
    if bs == [] || KeyOf(scope, bs[0]) == key then 0
    else
      var i := Place(scope, bs[1..], key);
      assert forall j :: 0 < j <= i ==> bs[j] == bs[1..][j - 1];
      1 + i
  }

  /** A stored bucket enters the table; a later one with the same key replaces it. */
  function PutBucket(scope: string, bs: seq<Bucket>, b: Bucket): seq<Bucket> {
    var i := Place(scope, bs, KeyOf(scope, b));
    if i < |bs| then bs[i := b] else bs + [b]
  }

  /** An event is counted in the bucket with its key, which is made when there is none. */
  function AddEvent(scope: string, bs: seq<Bucket>, e: UsageEvent): seq<Bucket> {
    var i := Place(scope, bs, EventKey(scope, e));
    if i < |bs| then bs[i := bs[i].(count := bs[i].count + 1)] else bs + [Single(scope, e)]
  }

  /** The first bucket with the event's key counts one more; without one, a bucket of its own is added. */
  lemma AddEventIs(scope: string, bs: seq<Bucket>, e: UsageEvent, i: nat)
    requires i <= |bs| && forall j :: 0 <= j < i ==> KeyOf(scope, bs[j]) != KeyOf(scope, Single(scope, e))
    requires i < |bs| ==> KeyOf(scope, bs[i]) == KeyOf(scope, Single(scope, e))
    ensures AddEvent(scope, bs, e) == if i < |bs| then bs[i := bs[i].(count := bs[i].count + 1)]
                                      else bs + [Single(scope, e)]
  {
    hide KeyOf, Single;
    assert Place(scope, bs, EventKey(scope, e)) == i;
  }

  function PutAll(scope: string, bs: seq<Bucket>): seq<Bucket> {
    if bs == [] then [] else PutBucket(scope, PutAll(scope, bs[..|bs| - 1]), bs[|bs| - 1])
  }

  function AddAll(scope: string, bs: seq<Bucket>, es: seq<UsageEvent>): seq<Bucket> {
    if es == [] then bs else AddEvent(scope, AddAll(scope, bs, es[..|es| - 1]), es[|es| - 1])
  }

  predicate DistinctKeys(scope: string, bs: seq<Bucket>) {
    forall i, j :: 0 <= i < j < |bs| ==> KeyOf(scope, bs[i]) != KeyOf(scope, bs[j])
  }

  lemma PutKeepsDistinct(scope: string, bs: seq<Bucket>, b: Bucket)
    requires DistinctKeys(scope, bs)
    ensures DistinctKeys(scope, PutBucket(scope, bs, b))
  {
    hide BucketKey;
  }

  lemma AddKeepsDistinct(scope: string, bs: seq<Bucket>, e: UsageEvent)
    requires DistinctKeys(scope, bs)
    ensures DistinctKeys(scope, AddEvent(scope, bs, e))
  {
    hide BucketKey;
  }

  lemma {:induction false} PutAllDistinct(scope: string, bs: seq<Bucket>)
    ensures DistinctKeys(scope, PutAll(scope, bs))
  {
    hide BucketKey, PutBucket;
    if bs != [] {
      PutAllDistinct(scope, bs[..|bs| - 1]);
      PutKeepsDistinct(scope, PutAll(scope, bs[..|bs| - 1]), bs[|bs| - 1]);
    }
  }

  lemma {:induction false} AddAllDistinct(scope: string, bs: seq<Bucket>, es: seq<UsageEvent>)
    requires DistinctKeys(scope, bs)
    ensures DistinctKeys(scope, AddAll(scope, bs, es))
  {
    hide BucketKey, AddEvent;
    if es != [] {
      AddAllDistinct(scope, bs, es[..|es| - 1]);
      AddKeepsDistinct(scope, AddAll(scope, bs, es[..|es| - 1]), es[|es| - 1]);
    }
  }

  /** Buckets with distinct keys enter the table as they are. */
  lemma {:induction false} PutAllIdentity(scope: string, bs: seq<Bucket>)
    requires DistinctKeys(scope, bs)
    ensures PutAll(scope, bs) == bs
  {
    hide BucketKey;
    if bs != [] {
      PutAllIdentity(scope, bs[..|bs| - 1]);
      assert bs == bs[..|bs| - 1] + [bs[|bs| - 1]];
    }
  }

  // --------------------------------------------------------------------- totals

  function RawTotal(es: seq<UsageEvent>, weight: Tag -> int): int {
    if es == [] then 0 else weight(EventTag(es[0])) + RawTotal(es[1..], weight)
  }

  function BucketTotal(bs: seq<Bucket>, weight: Tag -> int): int {
    if bs == [] then 0 else bs[0].count * weight(BucketTag(bs[0])) + BucketTotal(bs[1..], weight)
  }

  lemma {:induction false} RawTotalAppend(a: seq<UsageEvent>, b: seq<UsageEvent>, weight: Tag -> int)
    ensures RawTotal(a + b, weight) == RawTotal(a, weight) + RawTotal(b, weight)
  {
    hide EventTag;
    if a == [] {
      assert a + b == b;
    } else {
      RawTotalAppend(a[1..], b, weight);
      assert (a + b)[1..] == a[1..] + b;
    }
  }

  lemma {:induction false} BucketTotalAppend(a: seq<Bucket>, b: seq<Bucket>, weight: Tag -> int)
    ensures BucketTotal(a + b, weight) == BucketTotal(a, weight) + BucketTotal(b, weight)
  {
    hide BucketTag;
    if a == [] {
      assert a + b == b;
    } else {
      BucketTotalAppend(a[1..], b, weight);
      assert (a + b)[1..] == a[1..] + b;
    }
  }

  lemma OneMore(count: int, x: int)
    ensures (count + 1) * x == count * x + x
  {
  }

  lemma {:induction false} CountOneMore(bs: seq<Bucket>, i: nat, weight: Tag -> int)
    requires i < |bs|
    ensures BucketTotal(bs[i := bs[i].(count := bs[i].count + 1)], weight)
         == BucketTotal(bs, weight) + weight(BucketTag(bs[i]))
  {
    var bs' := bs[i := bs[i].(count := bs[i].count + 1)];
    if i == 0 {
      assert bs'[1..] == bs[1..];
      OneMore(bs[0].count, weight(BucketTag(bs[0])));
    } else {
      CountOneMore(bs[1..], i - 1, weight);
      assert bs'[1..] == bs[1..][i - 1 := bs[i].(count := bs[i].count + 1)];
    }
  }

  /** Counting an event adds the weight of the bucket it went to. */
  lemma AddEventTotal(scope: string, bs: seq<Bucket>, e: UsageEvent, weight: Tag -> int)
    ensures var i := Place(scope, bs, EventKey(scope, e));
            BucketTotal(AddEvent(scope, bs, e), weight)
            == BucketTotal(bs, weight) + weight(if i < |bs| then BucketTag(bs[i]) else EventTag(e))
  {
    hide KeyOf, EventKey;
    var i := Place(scope, bs, EventKey(scope, e));
    if i < |bs| {
      hide BucketTotal;
      CountOneMore(bs, i, weight);
    } else {
      BucketTotalAppend(bs, [Single(scope, e)], weight);
      hide Place;
      assert [Single(scope, e)][1..] == [];
      assert BucketTag(Single(scope, e)) == EventTag(e);
    }
  }

  /** Folding an event keeps every total exactly when its bucket is not already taken by something else. */
  lemma AddKeepsTotalsIff(scope: string, bs: seq<Bucket>, e: UsageEvent)
    ensures (forall weight: Tag -> int :: BucketTotal(AddEvent(scope, bs, e), weight)
                                       == BucketTotal(bs, weight) + weight(EventTag(e)))
       <==> var i := Place(scope, bs, EventKey(scope, e)); i < |bs| ==> BucketTag(bs[i]) == EventTag(e)
  {
    hide KeyOf, AddEvent, BucketTotal;
    var i := Place(scope, bs, EventKey(scope, e));
    forall weight: Tag -> int
      ensures BucketTotal(AddEvent(scope, bs, e), weight)
           == BucketTotal(bs, weight) + weight(if i < |bs| then BucketTag(bs[i]) else EventTag(e))
    {
      AddEventTotal(scope, bs, e, weight);
    }
    if i < |bs| && BucketTag(bs[i]) != EventTag(e) {
      var weight := (t: Tag) => if t == EventTag(e) then 1 else 0;
      assert BucketTotal(AddEvent(scope, bs, e), weight) != BucketTotal(bs, weight) + weight(EventTag(e));
    }
  }

  // ------------------------------------------------------- which events may be folded

  /** Events with the same bucket key agree in everything a reader looks at. */
  predicate Unmixed(scope: string, es: seq<UsageEvent>) {
    forall e, f :: e in es && f in es && EventKey(scope, e) == EventKey(scope, f) ==> EventTag(e) == EventTag(f)
  }

  predicate PlainEvents(es: seq<UsageEvent>) {
    forall e :: e in es ==> PlainEvent(e)
  }

  /** Plain names are enough. */
  lemma PlainUnmixed(scope: string, es: seq<UsageEvent>)
    requires PlainEvents(es)
    ensures Unmixed(scope, es)
  {
    hide BucketKey, EventTag;
    forall e, f | e in es && f in es && EventKey(scope, e) == EventKey(scope, f) ensures EventTag(e) == EventTag(f) {
      SameKeySameTag(scope, e, f);
    }
  }

  lemma SameKeySameTag(scope: string, e: UsageEvent, f: UsageEvent)
    requires PlainEvent(e) && PlainEvent(f) && EventKey(scope, e) == EventKey(scope, f)
    ensures EventTag(e) == EventTag(f)
  {
    KeyInjective(scope, EventTag(e), e.tabName, e.viewName, EventTag(f), f.tabName, f.viewName);
  }

  /** A bucket that counts at least one event, with the key and the tag of one of these. */
  predicate Stems(scope: string, b: Bucket, es: seq<UsageEvent>) {
    b.count >= 1 && exists e :: e in es && EventKey(scope, e) == KeyOf(scope, b) && EventTag(e) == BucketTag(b)
  }

  predicate AllStem(scope: string, bs: seq<Bucket>, es: seq<UsageEvent>) {
    forall b :: b in bs ==> Stems(scope, b, es)
  }

  lemma SingleStems(scope: string, e: UsageEvent, es: seq<UsageEvent>)
    requires e in es
    ensures Stems(scope, Single(scope, e), es)
  {
    assert EventTag(e) == BucketTag(Single(scope, e));
  }

  lemma OneMoreStems(scope: string, b: Bucket, es: seq<UsageEvent>)
    requires Stems(scope, b, es)
    ensures Stems(scope, b.(count := b.count + 1), es)
  {
    var e :| e in es && EventKey(scope, e) == KeyOf(scope, b) && EventTag(e) == BucketTag(b);
    assert EventTag(e) == BucketTag(b.(count := b.count + 1));
    assert EventKey(scope, e) == KeyOf(scope, b.(count := b.count + 1));
  }

  lemma AddStems(scope: string, bs: seq<Bucket>, e: UsageEvent, es: seq<UsageEvent>)
    requires AllStem(scope, bs, es) && e in es
    ensures AllStem(scope, AddEvent(scope, bs, e), es)
  {
    hide KeyOf, Stems, EventKey, Single;
    SingleStems(scope, e, es);
    var i := Place(scope, bs, EventKey(scope, e));
    if i < |bs| {
      assert bs[i] in bs;
      OneMoreStems(scope, bs[i], es);
    }
  }

  /** Buckets made from events stem from them. */
  lemma {:induction false} AddAllStem(scope: string, bs: seq<Bucket>, chunk: seq<UsageEvent>, es: seq<UsageEvent>)
    requires AllStem(scope, bs, es) && forall e :: e in chunk ==> e in es
    ensures AllStem(scope, AddAll(scope, bs, chunk), es)
  {
    hide AllStem, AddEvent;
    if chunk != [] {
      AddAllStem(scope, bs, chunk[..|chunk| - 1], es);
      AddStems(scope, AddAll(scope, bs, chunk[..|chunk| - 1]), chunk[|chunk| - 1], es);
    }
  }

  lemma AddUnmixed(scope: string, bs: seq<Bucket>, e: UsageEvent, es: seq<UsageEvent>, weight: Tag -> int)
    requires AllStem(scope, bs, es) && e in es && Unmixed(scope, es)
    ensures BucketTotal(AddEvent(scope, bs, e), weight) == BucketTotal(bs, weight) + weight(EventTag(e))
  {
    hide KeyOf, EventKey, Single, BucketTotal, EventTag, BucketTag;
    AddEventTotal(scope, bs, e, weight);
    var i := Place(scope, bs, EventKey(scope, e));
    if i < |bs| {
      assert bs[i] in bs;
      var f :| f in es && EventKey(scope, f) == KeyOf(scope, bs[i]) && EventTag(f) == BucketTag(bs[i]);
      assert EventTag(f) == EventTag(e);
    }
  }

  /** Folding events that do not mix keeps every total. */
  lemma {:induction false} AddAllUnmixed(scope: string, bs: seq<Bucket>, chunk: seq<UsageEvent>, es: seq<UsageEvent>,
                                         weight: Tag -> int)
    requires AllStem(scope, bs, es) && Unmixed(scope, es) && forall e :: e in chunk ==> e in es
    ensures BucketTotal(AddAll(scope, bs, chunk), weight) == BucketTotal(bs, weight) + RawTotal(chunk, weight)
  {
    hide Unmixed, AllStem, AddEvent, BucketTotal, EventTag;
    if chunk != [] {
      var front, last := chunk[..|chunk| - 1], chunk[|chunk| - 1];
      assert chunk == front + [last] && last in chunk;
      AddAllUnmixed(scope, bs, front, es, weight);
      AddAllStem(scope, bs, front, es);
      AddUnmixed(scope, AddAll(scope, bs, front), last, es, weight);
      RawTotalAppend(front, [last], weight);
      assert [last][1..] == [];
    }
  }

  /** The weight of every event is one, whatever it is. */
  function Each(t: Tag): int { 1 }

  /** Whatever the names, folding events loses and invents none. */
  lemma {:induction false} AddAllCounts(scope: string, bs: seq<Bucket>, es: seq<UsageEvent>)
    ensures BucketTotal(AddAll(scope, bs, es), Each) == BucketTotal(bs, Each) + |es|
  {
    hide KeyOf, AddEvent, BucketTotal, EventTag;
    if es != [] {
      AddAllCounts(scope, bs, es[..|es| - 1]);
      AddEventTotal(scope, AddAll(scope, bs, es[..|es| - 1]), es[|es| - 1], Each);
    }
  }

  lemma {:induction false} RawCounts(es: seq<UsageEvent>)
    ensures RawTotal(es, Each) == |es|
  {
    if es != [] {
      RawCounts(es[1..]);
    }
  }

  // ----------------------------------------------------------- order is irrelevant

  /** The same buckets in another order. */
  predicate Rearranged(a: seq<Bucket>, b: seq<Bucket>) {
    multiset(a) == multiset(b)
  }

  lemma {:induction false} RearrangedTotal(a: seq<Bucket>, b: seq<Bucket>, weight: Tag -> int)
    requires Rearranged(a, b)
    ensures BucketTotal(a, weight) == BucketTotal(b, weight)
    decreases |a|
  {
    hide BucketTag;
    assert b != [] ==> b[0] in multiset(b);
    if a != [] {
      assert a[0] in multiset(b);
      var i :| 0 <= i < |b| && b[i] == a[0];
      var front, back := b[..i], b[i + 1..];
      SameRest(a, b, i);
      RearrangedTotal(a[1..], front + back, weight);
      BucketTotalAppend(front, [b[i]] + back, weight);
      BucketTotalAppend(front, back, weight);
      assert front + ([b[i]] + back) == b && ([b[i]] + back)[1..] == back;
    }
  }

  lemma RearrangedKeys(scope: string, a: seq<Bucket>, b: seq<Bucket>)
    requires Rearranged(a, b) && DistinctKeys(scope, b)
    ensures DistinctKeys(scope, a)
  {
    hide KeyOf;
    forall i, j | 0 <= i < j < |a| ensures KeyOf(scope, a[i]) != KeyOf(scope, a[j]) {
      if KeyOf(scope, a[i]) == KeyOf(scope, a[j]) {
        assert a[i] in multiset(b) && a[j] in multiset(b);
        var p :| 0 <= p < |b| && b[p] == a[i];
        var q :| 0 <= q < |b| && b[q] == a[j];
        assert p == q;
        OccursTwice(a, i, j);
        OccursOnce(b, p);
      }
    }
  }

  lemma RearrangedStem(scope: string, a: seq<Bucket>, b: seq<Bucket>, es: seq<UsageEvent>)
    requires Rearranged(a, b) && AllStem(scope, b, es)
    ensures AllStem(scope, a, es)
  {
    hide Stems;
    forall x | x in a ensures Stems(scope, x, es) {
      assert x in multiset(b);
    }
  }
}
