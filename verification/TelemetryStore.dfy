/** One compaction of the usage log: the oldest events of a scope are folded into sorted buckets through a
    dictionary, as loops over the dictionary and as the relation they are proved against. */
module TelemetryStore {
  import opened Prelude
  import opened Lists
  import opened Sorting
  import opened TelemetryKey
  import opened Telemetry

  datatype ScopeState = ScopeState(rawEvents: seq<UsageEvent>, aggregateBuckets: seq<Bucket>)

  function Max(a: int, b: int): (m: int)
    ensures m >= a && m >= b && (m == a || m == b)
  {
    if a > b then a else b
  }

  // ----------------------------------------------------------------- one compaction

  /** aggregateBuckets are sorted by day, hour and feature; the order of ties is left to the dictionary. */
  predicate BucketLess(a: Bucket, b: Bucket) {
    if a.day != b.day then a.day < b.day
    else if a.hour != b.hour then a.hour < b.hour
    else StrLess(a.featureKey.text, b.featureKey.text)
  }

  predicate MayPrecede(a: Bucket, b: Bucket) {
    !BucketLess(b, a)
  }

  predicate SortedBuckets(bs: seq<Bucket>) {
    InOrder(bs, MayPrecede)
  }

  function SortBuckets(bs: seq<Bucket>): seq<Bucket> {
    Sort(bs, MayPrecede)
  }

  lemma MayPrecedeTotal()
    ensures Total(MayPrecede)
  {
    forall a: Bucket, b: Bucket ensures MayPrecede(a, b) || MayPrecede(b, a) {
      StrLessTotal(a.featureKey.text, b.featureKey.text);
    }
  }

  lemma SortBucketsSorts(bs: seq<Bucket>)
    ensures SortedBuckets(SortBuckets(bs)) && Rearranged(SortBuckets(bs), bs)
  {
    MayPrecedeTotal();
    SortInOrder(bs, MayPrecede);
    SortKeeps(bs, MayPrecede);
  }

  /** By day, then hour, then the text of the feature. */
  lemma SortBucketsOrder(bs: seq<Bucket>, i: nat, j: nat)
    requires i < j < |bs|
    ensures |SortBuckets(bs)| == |bs|
    ensures var a, b := SortBuckets(bs)[i], SortBuckets(bs)[j];
            && a.day <= b.day && (a.day == b.day ==> a.hour <= b.hour)
            && (a.day == b.day && a.hour == b.hour ==> !StrLess(b.featureKey.text, a.featureKey.text))
  {
    SortBucketsSorts(bs);
    SortKeeps(bs, MayPrecede);
    assert multiset(SortBuckets(bs)) == multiset(bs);
    assert |multiset(SortBuckets(bs))| == |multiset(bs)|;
    MayPrecedeOrders();
    PairInOrder(SortBuckets(bs), MayPrecede, i, j);
  }

  lemma MayPrecedeOrders()
    ensures Transitive(MayPrecede)
  {
    forall a: Bucket, b: Bucket, c: Bucket | MayPrecede(a, b) && MayPrecede(b, c) ensures MayPrecede(a, c) {
      var (x, y, z) := (a.featureKey.text, b.featureKey.text, c.featureKey.text);
      StrLessTotal(x, y);
      StrLessTotal(y, z);
      StrLessTotal(x, z);
      if StrLess(x, y) && StrLess(y, z) { StrLessTransitive(x, y, z); }
    }
  }

  /** How many of the oldest events are folded away. */
  function ChunkSize(count: nat, cap: int, batch: int): (n: nat)
    requires count > cap >= 0
    ensures n <= count && count - n <= cap
  {
    var chunk := Max(batch, count - cap);
    if chunk < count then chunk else count
  }

  /** What compactIfNeeded may turn a state into. */
  predicate Compacts(scope: string, cap: int, batch: int, s: ScopeState, s': ScopeState)
    requires cap >= 0
  {
    if |s.rawEvents| <= cap then s' == s
    else
      var n := ChunkSize(|s.rawEvents|, cap, batch);
      && s'.rawEvents == s.rawEvents[n..]
      && Rearranged(s'.aggregateBuckets, AddAll(scope, PutAll(scope, s.aggregateBuckets), s.rawEvents[..n]))
      && SortedBuckets(s'.aggregateBuckets)
  }

  /** How many raw events remain of so many: all of them within the cap; otherwise a whole batch is gone, or what
      exceeds the cap if that is more, or everything if there is no more. */
  function RawAfter(count: nat, cap: int, batch: int): int {
    if count <= cap then count
    else if count <= batch then 0
    else if batch >= count - cap then count - batch
    else cap
  }

  lemma FoldedCount(scope: string, cap: int, batch: int, s: ScopeState, s': ScopeState)
    requires cap >= 0 && Compacts(scope, cap, batch, s, s')
    ensures |s'.rawEvents| == RawAfter(|s.rawEvents|, cap, batch)
    ensures |s.rawEvents| > cap ==>
              |s.rawEvents| - |s'.rawEvents| ==
                if |s.rawEvents| <= batch then |s.rawEvents|
                else if batch >= |s.rawEvents| - cap then batch
                else |s.rawEvents| - cap
  {
  }

  // ---------------------------------------------------------------- the dictionary

  /** The dictionary holds exactly these buckets, each under its key. */
  predicate Represents(scope: string, table: map<Key, Bucket>, bs: seq<Bucket>) {
    && DistinctKeys(scope, bs)
    && (forall i :: 0 <= i < |bs| ==> KeyOf(scope, bs[i]) in table && table[KeyOf(scope, bs[i])] == bs[i])
    && (forall k :: k in table ==> table[k] in bs && KeyOf(scope, table[k]) == k)
  }

  lemma PlaceOf(scope: string, bs: seq<Bucket>, i: nat)
    requires DistinctKeys(scope, bs) && i < |bs|
    ensures Place(scope, bs, KeyOf(scope, bs[i])) == i
  {
    hide KeyOf;
  }

  /** Where a key is found, in the dictionary and in the list. */
  lemma Lookup(scope: string, table: map<Key, Bucket>, bs: seq<Bucket>, k: Key)
    requires Represents(scope, table, bs)
    ensures k in table <==> Place(scope, bs, k) < |bs|
    ensures k in table ==> bs[Place(scope, bs, k)] == table[k]
  {
    hide KeyOf;
    if k in table {
      assert table[k] in bs;
      var j :| 0 <= j < |bs| && bs[j] == table[k];
      PlaceOf(scope, bs, j);
    }
  }

  lemma PutListed(scope: string, table: map<Key, Bucket>, bs: seq<Bucket>, b: Bucket, x: Key)
    requires Represents(scope, table, bs) && x in table && x != KeyOf(scope, b)
    ensures table[x] in PutBucket(scope, bs, b)
  {
    hide KeyOf;
    assert table[x] in bs;
    var j :| 0 <= j < |bs| && bs[j] == table[x];
    assert KeyOf(scope, bs[j]) == x;
    assert PutBucket(scope, bs, b)[j] == table[x];
  }

  lemma PutRepresents(scope: string, table: map<Key, Bucket>, bs: seq<Bucket>, b: Bucket)
    requires Represents(scope, table, bs)
    ensures Represents(scope, table[KeyOf(scope, b) := b], PutBucket(scope, bs, b))
  {
    PutKeepsDistinct(scope, bs, b);
    var k, table', bs' := KeyOf(scope, b), table[KeyOf(scope, b) := b], PutBucket(scope, bs, b);
    hide KeyOf;
    var i := Place(scope, bs, k);
    assert bs'[i] == b;
    forall x | x in table' ensures table'[x] in bs' && KeyOf(scope, table'[x]) == x {
      if x != k { PutListed(scope, table, bs, b, x); }
    }
    forall j | 0 <= j < |bs'| ensures KeyOf(scope, bs'[j]) in table' && table'[KeyOf(scope, bs'[j])] == bs'[j] {
      if j != i { assert bs'[j] == bs[j]; }
    }
  }

  lemma KeyIsItsOwn(scope: string, table: map<Key, Bucket>, bs: seq<Bucket>, k: Key)
    requires Represents(scope, table, bs) && k in table
    ensures KeyOf(scope, table[k]) == k
  {
    hide KeyOf;
  }

  lemma KeyIgnoresCount(scope: string, b: Bucket, n: int)
    ensures KeyOf(scope, b.(count := n)) == KeyOf(scope, b)
  {
  }

  /** Counting an event is putting its bucket with one more, or its first bucket. */
  lemma AddIsPut(scope: string, table: map<Key, Bucket>, bs: seq<Bucket>, e: UsageEvent)
    requires Represents(scope, table, bs)
    ensures var k := EventKey(scope, e);
            AddEvent(scope, bs, e)
            == PutBucket(scope, bs, if k in table then table[k].(count := table[k].count + 1) else Single(scope, e))
    ensures var k := EventKey(scope, e); k in table ==> KeyOf(scope, table[k].(count := table[k].count + 1)) == k
  {
    hide KeyOf, Single, Represents, Place;
    var k := EventKey(scope, e);
    Lookup(scope, table, bs, k);
    if k in table {
      KeyIsItsOwn(scope, table, bs, k);
      KeyIgnoresCount(scope, table[k], table[k].count + 1);
    }
  }

  /** Two listings of the same dictionary hold the same buckets. */
  lemma SameListing(scope: string, a: seq<Bucket>, b: seq<Bucket>)
    requires DistinctKeys(scope, a) && DistinctKeys(scope, b) && forall x :: x in a <==> x in b
    ensures Rearranged(a, b)
  {
    hide KeyOf;
    forall x ensures multiset(a)[x] == multiset(b)[x] {
      if x in a {
        assert x in b;
        var i :| 0 <= i < |a| && a[i] == x;
        var j :| 0 <= j < |b| && b[j] == x;
        OccursOnce(a, i);
        OccursOnce(b, j);
      }
    }
  }

  /** aggregateMap.values, in some order. */
  method Values(scope: string, table: map<Key, Bucket>, ghost bs: seq<Bucket>) returns (values: seq<Bucket>)
    requires Represents(scope, table, bs)
    ensures Rearranged(values, bs)
  {
    hide KeyOf;
    var keys := table.Keys;
    values := [];
    while keys != {}
      invariant keys <= table.Keys
      invariant DistinctKeys(scope, values)
      invariant forall v :: v in values ==> v in bs && KeyOf(scope, v) !in keys
      invariant forall k :: k in table && k !in keys ==> table[k] in values
      decreases |keys|
    {
      var k :| k in keys;
      values := values + [table[k]];
      keys := keys - {k};
    }
    forall x | x in bs ensures x in values {
      assert KeyOf(scope, x) in table;
    }
    SameListing(scope, values, bs);
  }

  /** The first loop of compactIfNeeded. */
  method TableOf(scope: string, stored: seq<Bucket>) returns (aggregateMap: map<Key, Bucket>)
    ensures Represents(scope, aggregateMap, PutAll(scope, stored))
  {
    aggregateMap := map[];
    EmptyRepresents(scope);
    hide KeyOf, PutBucket, Represents;
    for i := 0 to |stored|
      invariant Represents(scope, aggregateMap, PutAll(scope, stored[..i]))
    {
      var bucket := stored[i];
      PutRepresents(scope, aggregateMap, PutAll(scope, stored[..i]), bucket);
      assert stored[..i + 1][..i] == stored[..i] && stored[..i + 1][i] == bucket;
      aggregateMap := aggregateMap[KeyOf(scope, bucket) := bucket];
    }
    assert stored[..|stored|] == stored;
  }

  /** The second loop of compactIfNeeded. */
  method CountInto(scope: string, table: map<Key, Bucket>, compacted: seq<UsageEvent>, ghost bs: seq<Bucket>)
    returns (aggregateMap: map<Key, Bucket>)
    requires Represents(scope, table, bs)
    ensures Represents(scope, aggregateMap, AddAll(scope, bs, compacted))
  {
    aggregateMap := table;
    hide KeyOf, PutBucket, AddEvent, Represents;
    for i := 0 to |compacted|
      invariant Represents(scope, aggregateMap, AddAll(scope, bs, compacted[..i]))
    {
      var event := compacted[i];
      var key := EventKey(scope, event);
      ghost var counted := AddAll(scope, bs, compacted[..i]);
      AddIsPut(scope, aggregateMap, counted, event);
      assert compacted[..i + 1][..i] == compacted[..i] && compacted[..i + 1][i] == event;
      if key in aggregateMap {
        var existing := aggregateMap[key];
        existing := existing.(count := existing.count + 1);
        PutRepresents(scope, aggregateMap, counted, existing);
        aggregateMap := aggregateMap[key := existing];
      } else {
        PutRepresents(scope, aggregateMap, counted, Single(scope, event));
        aggregateMap := aggregateMap[key := Single(scope, event)];
      }
    }
    assert compacted[..|compacted|] == compacted;
  }

  /** compactIfNeeded. */
  method CompactIfNeeded(scope: string, cap: int, batch: int, scoped: ScopeState) returns (s': ScopeState)
    requires cap >= 1
    ensures Compacts(scope, cap, batch, scoped, s')
  {
    if |scoped.rawEvents| <= cap { return scoped; }
    hide KeyOf, Represents, AddAll, PutAll, SortBuckets, SortedBuckets, Rearranged, DistinctKeys, Compacts;
    var extra := |scoped.rawEvents| - cap;
    var chunkSize := Max(batch, extra);
    var boundedChunkSize := if chunkSize < |scoped.rawEvents| then chunkSize else |scoped.rawEvents|;
    assert boundedChunkSize == ChunkSize(|scoped.rawEvents|, cap, batch);
    var compacted := scoped.rawEvents[..boundedChunkSize];
    var rawEvents := scoped.rawEvents[boundedChunkSize..];
    var aggregateMap := TableOf(scope, scoped.aggregateBuckets);
    ghost var start := PutAll(scope, scoped.aggregateBuckets);
    aggregateMap := CountInto(scope, aggregateMap, compacted, start);
    var values := Values(scope, aggregateMap, AddAll(scope, start, compacted));
    CompactedIs(scope, cap, batch, scoped, values);
    s' := ScopeState(rawEvents, SortBuckets(values));
  }

  lemma CompactedIs(scope: string, cap: int, batch: int, s: ScopeState, values: seq<Bucket>)
    requires 0 <= cap < |s.rawEvents|
    requires var n := ChunkSize(|s.rawEvents|, cap, batch);
             Rearranged(values, AddAll(scope, PutAll(scope, s.aggregateBuckets), s.rawEvents[..n]))
    ensures var n := ChunkSize(|s.rawEvents|, cap, batch);
            Compacts(scope, cap, batch, s, ScopeState(s.rawEvents[n..], SortBuckets(values)))
  {
    hide SortBuckets, SortedBuckets, AddAll, PutAll, ChunkSize;
    SortBucketsSorts(values);
  }

  lemma EmptyRepresents(scope: string)
    ensures Represents(scope, map[], PutAll(scope, []))
  {
  }
}
