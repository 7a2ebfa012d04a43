/** The reader of the usage log: what it counts from raw events and buckets is what it would count from the
    full history. */
module Insights {
  import opened Prelude
  import opened Quartile
  import opened TelemetryKey
  import opened Telemetry
  import opened TelemetryStore
  import opened TelemetryLog
  import opened UsageLog

  datatype UsageRecord = UsageRecord(
    featureKey: Name,
    eventName: Name,
    day: int,
    dayDate: int,
    hour: int,
    count: int,
    categoryIds: seq<Name>,
    timestamp: int)

  const UNCATEGORIZED := Name("uncategorized")
  const CALENDAR_EXPORT := Name("calendar_export_initiated")

  // ------------------------------------------------------------- normalization

  /** The start of the local day, in a calendar with a fixed offset. */
  function DayStart(day: int, calendarOffset: int): int {
    day * 86400 - calendarOffset * 60
  }

  function BucketTime(day: int, hour: int, calendarOffset: int): int {
    DayStart(day, calendarOffset) + hour * 3600
  }

  function EventRecord(e: UsageEvent, calendarOffset: int): UsageRecord {
    var day := DayOf(e.timestamp, e.offsetMinutes);
    UsageRecord(e.featureKey, e.eventName, day, DayStart(day, calendarOffset), HourOf(e.timestamp, e.offsetMinutes), 1,
                e.categoryIds, e.timestamp)
  }

  function BucketRecord(b: Bucket, calendarOffset: int): UsageRecord {
    UsageRecord(b.featureKey, b.eventName, b.day, DayStart(b.day, calendarOffset), b.hour, b.count, b.categoryIds,
                BucketTime(b.day, b.hour, calendarOffset))
  }

  function EventRecords(es: seq<UsageEvent>, calendarOffset: int): (r: seq<UsageRecord>)
    ensures |r| == |es|
  {
    seq(|es|, i requires 0 <= i < |es| => EventRecord(es[i], calendarOffset))
  }

  function BucketRecords(bs: seq<Bucket>, calendarOffset: int): (r: seq<UsageRecord>)
    ensures |r| == |bs|
  {
    seq(|bs|, i requires 0 <= i < |bs| => BucketRecord(bs[i], calendarOffset))
  }

  function Normalized(s: ScopeState, calendarOffset: int): seq<UsageRecord> {
    EventRecords(s.rawEvents, calendarOffset) + BucketRecords(s.aggregateBuckets, calendarOffset)
  }

  /** normalizeTelemetry. */
  method NormalizeTelemetry(s: ScopeState, calendarOffset: int) returns (records: seq<UsageRecord>)
    ensures records == Normalized(s, calendarOffset)
  {
    records := [];
    for i := 0 to |s.rawEvents|
      invariant records == EventRecords(s.rawEvents[..i], calendarOffset)
    {
      records := records + [EventRecord(s.rawEvents[i], calendarOffset)];
    }
    assert s.rawEvents[..|s.rawEvents|] == s.rawEvents;
    for i := 0 to |s.aggregateBuckets|
      invariant records ==
                EventRecords(s.rawEvents, calendarOffset) + BucketRecords(s.aggregateBuckets[..i], calendarOffset)
    {
      records := records + [BucketRecord(s.aggregateBuckets[i], calendarOffset)];
    }
    assert s.aggregateBuckets[..|s.aggregateBuckets|] == s.aggregateBuckets;
  }

  /** An event is one use at its own time; a bucket is its uses at the start of its hour. Day and hour of an event are
      those of its own zone, the date of a day is its start in the calendar's. */
  lemma RecordsAre(e: UsageEvent, b: Bucket, calendarOffset: int)
    ensures var r := EventRecord(e, calendarOffset);
            && r == UsageRecord(e.featureKey, e.eventName, r.day, 86400 * r.day - 60 * calendarOffset, r.hour, 1,
                                e.categoryIds, e.timestamp)
            && 0 <= r.hour < 24
            && 0 <= e.timestamp + 60 * e.offsetMinutes - (86400 * r.day + 3600 * r.hour) < 3600
    ensures var r := BucketRecord(b, calendarOffset);
            r == UsageRecord(b.featureKey, b.eventName, b.day, 86400 * b.day - 60 * calendarOffset, b.hour, b.count,
                             b.categoryIds, 86400 * b.day - 60 * calendarOffset + 3600 * b.hour)
  {
    SingleIs("", e);
  }

  /** First the events, in order, then the buckets. */
  lemma NormalizedAre(s: ScopeState, calendarOffset: int, i: nat)
    ensures |Normalized(s, calendarOffset)| == |s.rawEvents| + |s.aggregateBuckets|
    ensures i < |s.rawEvents| ==> Normalized(s, calendarOffset)[i] == EventRecord(s.rawEvents[i], calendarOffset)
    ensures i < |s.aggregateBuckets| ==>
              Normalized(s, calendarOffset)[|s.rawEvents| + i] == BucketRecord(s.aggregateBuckets[i], calendarOffset)
  {
  }

  // ------------------------------------------------------------------- totals

  /** The sum of the counts, each weighed. */
  function Sum(records: seq<UsageRecord>, weight: UsageRecord -> int): int {
    if records == [] then 0 else records[0].count * weight(records[0]) + Sum(records[1..], weight)
  }

  lemma {:induction false} SumAppend(a: seq<UsageRecord>, b: seq<UsageRecord>, weight: UsageRecord -> int)
    ensures Sum(a + b, weight) == Sum(a, weight) + Sum(b, weight)
  {
    if a == [] {
      assert a + b == b;
    } else {
      SumAppend(a[1..], b, weight);
      assert (a + b)[1..] == a[1..] + b;
    }
  }

  lemma SumOneMore(records: seq<UsageRecord>, i: nat, weight: UsageRecord -> int)
    requires i < |records|
    ensures Sum(records[..i + 1], weight) == Sum(records[..i], weight) + records[i].count * weight(records[i])
  {
    assert records[..i + 1] == records[..i] + [records[i]];
    SumAppend(records[..i], [records[i]], weight);
    assert [records[i]][1..] == [];
  }

  /** A reading of records that looks only at the tag, on raw events as on buckets. */
  ghost predicate Reads(weight: UsageRecord -> int, tagWeight: Tag -> int, es: seq<UsageEvent>, calendarOffset: int) {
    && (forall e :: e in es ==> weight(EventRecord(e, calendarOffset)) == tagWeight(EventTag(e)))
    && (forall b :: weight(BucketRecord(b, calendarOffset)) == tagWeight(BucketTag(b)))
  }

  lemma {:induction false} EventSum(es: seq<UsageEvent>, calendarOffset: int, weight: UsageRecord -> int,
                                    tagWeight: Tag -> int)
    requires forall e :: e in es ==> weight(EventRecord(e, calendarOffset)) == tagWeight(EventTag(e))
    ensures Sum(EventRecords(es, calendarOffset), weight) == RawTotal(es, tagWeight)
  {
    hide EventTag;
    if es != [] {
      assert es[0] in es;
      EventSum(es[1..], calendarOffset, weight, tagWeight);
      assert EventRecords(es, calendarOffset)[1..] == EventRecords(es[1..], calendarOffset);
    }
  }

  lemma {:induction false} BucketSum(bs: seq<Bucket>, calendarOffset: int, weight: UsageRecord -> int,
                                     tagWeight: Tag -> int)
    requires forall b :: weight(BucketRecord(b, calendarOffset)) == tagWeight(BucketTag(b))
    ensures Sum(BucketRecords(bs, calendarOffset), weight) == BucketTotal(bs, tagWeight)
  {
    if bs != [] {
      BucketSum(bs[1..], calendarOffset, weight, tagWeight);
      assert BucketRecords(bs, calendarOffset)[1..] == BucketRecords(bs[1..], calendarOffset);
    }
  }

  /** A reading that looks only at tags gives the same sum on what is kept as on the full history. */
  lemma SameReading(s: ScopeState, history: seq<UsageEvent>, calendarOffset: int,
                    weight: UsageRecord -> int, tagWeight: Tag -> int)
    requires KeepsTail(s, history) && StandsFor(s, history, tagWeight)
             && Reads(weight, tagWeight, history, calendarOffset)
    ensures Sum(Normalized(s, calendarOffset), weight) == Sum(Normalized(Full(history), calendarOffset), weight)
  {
    hide EventTag, EventRecord, BucketTag, BucketRecord, Sum, RawTotal;
    assert forall e :: e in s.rawEvents ==> e in history;
    SumAppend(EventRecords(s.rawEvents, calendarOffset), BucketRecords(s.aggregateBuckets, calendarOffset), weight);
    EventSum(s.rawEvents, calendarOffset, weight, tagWeight);
    BucketSum(s.aggregateBuckets, calendarOffset, weight, tagWeight);
    SumAppend(EventRecords(history, calendarOffset), BucketRecords([], calendarOffset), weight);
    EventSum(history, calendarOffset, weight, tagWeight);
    BucketSum([], calendarOffset, weight, tagWeight);
  }

  /** A log that was never compacted. */
  function Full(history: seq<UsageEvent>): ScopeState {
    ScopeState(history, [])
  }

  // ------------------------------------------------------------ what is reported

  function OfFeature(f: Name): UsageRecord -> int {
    (r: UsageRecord) => if r.featureKey == f then 1 else 0
  }

  function AtHour(h: int): UsageRecord -> int {
    (r: UsageRecord) => if r.hour == h then 1 else 0
  }

  function Exports(feature: Name, categoryIds: seq<Name>, c: Name): int {
    if feature != CALENDAR_EXPORT then 0
    else if categoryIds == [] then (if c == UNCATEGORIZED then 1 else 0)
    else multiset(categoryIds)[c]
  }

  function ExportsOf(c: Name): UsageRecord -> int {
    (r: UsageRecord) => Exports(r.featureKey, r.categoryIds, c)
  }

  predicate Within(t: int, windowStart: int, now: int) {
    windowStart <= t <= now
  }

  function InWindow(f: Name, windowStart: int, now: int): UsageRecord -> int {
    (r: UsageRecord) => if r.featureKey == f && Within(r.timestamp, windowStart, now) then 1 else 0
  }

  function Get<K(==)>(counts: map<K, int>, k: K): int {
    if k in counts then counts[k] else 0
  }

  datatype GapStatus = Unused | Underused | Used

  datatype CatalogItem = CatalogItem(key: Name, title: string)

  datatype FeatureStat = FeatureStat(
    featureKey: Name,
    title: string,
    allTimeCount: int,
    windowCount: int,
    lastUsedAt: Option<int>,
    gapStatus: GapStatus)

  /** Date.distantPast. */
  const DISTANT_PAST := -62_135_769_600

  function Later(existing: Option<int>, t: int): Option<int> {
    if t > (if existing.Some? then existing.value else DISTANT_PAST) then Some(t) else existing
  }

  /** The latest time of a record of the feature. */
  function LastUsed(records: seq<UsageRecord>, f: Name): Option<int> {
    if records == [] then None
    else
      var before, r := LastUsed(records[..|records| - 1], f), records[|records| - 1];
      if r.featureKey == f then Later(before, r.timestamp) else before
  }

  function Find<K(==)>(times: map<K, int>, k: K): Option<int> {
    if k in times then Some(times[k]) else None
  }

  function Gap(count: int, threshold: int): GapStatus {
    if count == 0 then Unused else if count < threshold then Underused else Used
  }

  function WindowCounts(records: seq<UsageRecord>, catalog: seq<CatalogItem>, windowStart: int, now: int): (r: seq<int>)
    ensures |r| == |catalog|
  {
    seq(|catalog|, i requires 0 <= i < |catalog| => Sum(records, InWindow(catalog[i].key, windowStart, now)))
  }

  function FeatureStats(records: seq<UsageRecord>, catalog: seq<CatalogItem>, windowStart: int, now: int)
    : (r: seq<FeatureStat>)
    ensures |r| == |catalog|
  {
    var inWindow := WindowCounts(records, catalog, windowStart, now);
    var threshold := Max(3, Percentile25(inWindow));
    seq(|catalog|, i requires 0 <= i < |catalog| =>
      FeatureStat(catalog[i].key, catalog[i].title, Sum(records, OfFeature(catalog[i].key)), inWindow[i],
                  LastUsed(records, catalog[i].key), Gap(inWindow[i], threshold)))
  }

  lemma NoRecords(records: seq<UsageRecord>, f: Name, windowStart: int, now: int)
    ensures Sum(records[..0], OfFeature(f)) == 0 && Sum(records[..0], InWindow(f, windowStart, now)) == 0
    ensures LastUsed(records[..0], f) == None
  {
  }

  /** One more record, in all three counts. */
  lemma OneMoreRecord(records: seq<UsageRecord>, i: nat, f: Name, windowStart: int, now: int)
    requires i < |records|
    ensures var r := records[i];
            && Sum(records[..i + 1], OfFeature(f))
               == Sum(records[..i], OfFeature(f)) + (if r.featureKey == f then r.count else 0)
            && Sum(records[..i + 1], InWindow(f, windowStart, now))
               == Sum(records[..i], InWindow(f, windowStart, now))
                  + (if r.featureKey == f && Within(r.timestamp, windowStart, now) then r.count else 0)
            && LastUsed(records[..i + 1], f)
               == if r.featureKey == f then Later(LastUsed(records[..i], f), r.timestamp) else LastUsed(records[..i], f)
  {
    SumOneMore(records, i, OfFeature(f));
    SumOneMore(records, i, InWindow(f, windowStart, now));
    assert records[..i + 1][..i] == records[..i];
  }

  /** The counting loop of buildFeatureStats. */
  method CountFeatures(records: seq<UsageRecord>, windowStart: int, now: int)
    returns (allTimeCounts: map<Name, int>, windowCounts: map<Name, int>, lastUsed: map<Name, int>)
    ensures forall f :: Get(allTimeCounts, f) == Sum(records, OfFeature(f))
    ensures forall f :: Get(windowCounts, f) == Sum(records, InWindow(f, windowStart, now))
    ensures forall f :: Find(lastUsed, f) == LastUsed(records, f)
  {
    hide Sum, OfFeature, InWindow, LastUsed, Within;
    allTimeCounts, windowCounts, lastUsed := map[], map[], map[];
    forall f
      ensures Sum(records[..0], OfFeature(f)) == 0 && Sum(records[..0], InWindow(f, windowStart, now)) == 0
      ensures LastUsed(records[..0], f) == None
    {
      NoRecords(records, f, windowStart, now);
    }
    for i := 0 to |records|
      invariant forall f :: Get(allTimeCounts, f) == Sum(records[..i], OfFeature(f))
      invariant forall f :: Get(windowCounts, f) == Sum(records[..i], InWindow(f, windowStart, now))
      invariant forall f :: Find(lastUsed, f) == LastUsed(records[..i], f)
    {
      var r := records[i];
      forall f
        ensures Sum(records[..i + 1], OfFeature(f))
             == Sum(records[..i], OfFeature(f)) + (if r.featureKey == f then r.count else 0)
        ensures Sum(records[..i + 1], InWindow(f, windowStart, now))
             == Sum(records[..i], InWindow(f, windowStart, now))
                + (if r.featureKey == f && Within(r.timestamp, windowStart, now) then r.count else 0)
        ensures LastUsed(records[..i + 1], f)
             == if r.featureKey == f then Later(LastUsed(records[..i], f), r.timestamp) else LastUsed(records[..i], f)
      {
        OneMoreRecord(records, i, f, windowStart, now);
      }
      allTimeCounts := allTimeCounts[r.featureKey := Get(allTimeCounts, r.featureKey) + r.count];
      if Within(r.timestamp, windowStart, now) {
        windowCounts := windowCounts[r.featureKey := Get(windowCounts, r.featureKey) + r.count];
      }
      ghost var before := lastUsed;
      var existing := if r.featureKey in lastUsed then lastUsed[r.featureKey] else DISTANT_PAST;
      if r.timestamp > existing {
        lastUsed := lastUsed[r.featureKey := r.timestamp];
      }
      forall f ensures Find(lastUsed, f) == LastUsed(records[..i + 1], f) {
        assert Find(before, f) == LastUsed(records[..i], f);
      }
    }
    assert records[..|records|] == records;
  }

  /** buildFeatureStats. */
  method BuildFeatureStats(records: seq<UsageRecord>, catalog: seq<CatalogItem>, windowStart: int, now: int)
    returns (stats: seq<FeatureStat>)
    ensures stats == FeatureStats(records, catalog, windowStart, now)
    ensures |stats| == |catalog|
    ensures forall i :: 0 <= i < |stats| ==> StatIs(stats[i], catalog[i], records, windowStart, now)
    ensures var counts := seq(|stats|, i requires 0 <= i < |stats| => stats[i].windowCount);
            forall i, q :: 0 <= i < |stats| && IsQuarter(counts, q) ==>
              (stats[i].gapStatus == Used <==> counts[i] >= 3 && counts[i] >= q)
  {
    FeatureStatsAre(records, catalog, windowStart, now);
    var allTimeCounts, windowCounts, lastUsed := CountFeatures(records, windowStart, now);
    hide Sum, LastUsed;
    var catalogCounts := seq(|catalog|, i requires 0 <= i < |catalog| => Get(windowCounts, catalog[i].key));
    assert catalogCounts == WindowCounts(records, catalog, windowStart, now);
    var threshold := Max(3, Percentile25(catalogCounts));
    stats := seq(|catalog|, i requires 0 <= i < |catalog| =>
      FeatureStat(catalog[i].key, catalog[i].title, Get(allTimeCounts, catalog[i].key),
                  Get(windowCounts, catalog[i].key), Find(lastUsed, catalog[i].key),
                  Gap(Get(windowCounts, catalog[i].key), threshold)));
  }

  /** A statistic of the catalog item: how often its feature was used, in all and in the window, and when last. It is
      unused when it was not used in the window at all, and at most underused below three times. */
  predicate StatIs(stat: FeatureStat, item: CatalogItem, records: seq<UsageRecord>, windowStart: int, now: int) {
    && stat.featureKey == item.key && stat.title == item.title
    && stat.allTimeCount == Sum(records, (r: UsageRecord) => if r.featureKey == item.key then 1 else 0)
    && stat.windowCount == Sum(records, (r: UsageRecord) =>
                             if r.featureKey == item.key && windowStart <= r.timestamp <= now then 1 else 0)
    && (stat.gapStatus == Unused <==> stat.windowCount == 0)
    && (0 < stat.windowCount < 3 ==> stat.gapStatus == Underused)
    && (match stat.lastUsedAt
        case None => forall r :: r in records && r.featureKey == item.key ==> r.timestamp <= -62_135_769_600
        case Some(t) =>
          && t > -62_135_769_600
          && (exists r :: r in records && r.featureKey == item.key && r.timestamp == t)
          && (forall r :: r in records && r.featureKey == item.key ==> r.timestamp <= t))
  }

  lemma FeatureStatsAre(records: seq<UsageRecord>, catalog: seq<CatalogItem>, windowStart: int, now: int)
    ensures var stats := FeatureStats(records, catalog, windowStart, now);
            forall i :: 0 <= i < |catalog| ==> StatIs(stats[i], catalog[i], records, windowStart, now)
    ensures var stats := FeatureStats(records, catalog, windowStart, now);
            var counts := seq(|stats|, i requires 0 <= i < |stats| => stats[i].windowCount);
            forall i, q :: 0 <= i < |stats| && IsQuarter(counts, q) ==>
              (stats[i].gapStatus == Used <==> counts[i] >= 3 && counts[i] >= q)
  {
    var stats := FeatureStats(records, catalog, windowStart, now);
    var counts := seq(|stats|, i requires 0 <= i < |stats| => stats[i].windowCount);
    assert counts == WindowCounts(records, catalog, windowStart, now);
    forall i | 0 <= i < |catalog| ensures StatIs(stats[i], catalog[i], records, windowStart, now) {
      LastUsedIs(records, catalog[i].key);
      SameWeights(records, catalog[i].key, windowStart, now);
    }
    hide Sum, LastUsed, StatIs;
    forall i, q | 0 <= i < |stats| && IsQuarter(counts, q)
      ensures stats[i].gapStatus == Used <==> counts[i] >= 3 && counts[i] >= q
    {
      PercentileIs(counts);
      QuarterUnique(counts, q, Percentile25(counts));
    }
  }

  lemma SameWeights(records: seq<UsageRecord>, f: Name, windowStart: int, now: int)
    ensures Sum(records, OfFeature(f)) == Sum(records, (r: UsageRecord) => if r.featureKey == f then 1 else 0)
    ensures Sum(records, InWindow(f, windowStart, now)) ==
            Sum(records, (r: UsageRecord) => if r.featureKey == f && windowStart <= r.timestamp <= now then 1 else 0)
  {
    SumSame(records, OfFeature(f), (r: UsageRecord) => if r.featureKey == f then 1 else 0);
    SumSame(records, InWindow(f, windowStart, now),
            (r: UsageRecord) => if r.featureKey == f && windowStart <= r.timestamp <= now then 1 else 0);
  }

  lemma {:induction false} SumSame(records: seq<UsageRecord>, a: UsageRecord -> int, b: UsageRecord -> int)
    requires forall r :: a(r) == b(r)
    ensures Sum(records, a) == Sum(records, b)
  {
    if records != [] { SumSame(records[1..], a, b); }
  }

  /** The time of last use is the latest of the feature's records. */
  lemma LastUsedIs(records: seq<UsageRecord>, f: Name)
    ensures match LastUsed(records, f)
            case None => forall r :: r in records && r.featureKey == f ==> r.timestamp <= -62_135_769_600
            case Some(t) =>
              && t > -62_135_769_600
              && (exists r :: r in records && r.featureKey == f && r.timestamp == t)
              && (forall r :: r in records && r.featureKey == f ==> r.timestamp <= t)
  {
    forall r | r in records && r.featureKey == f
      ensures r.timestamp <= match LastUsed(records, f) case None => -62_135_769_600 case Some(t) => t
    {
      if r.timestamp > DISTANT_PAST { LastUsedBounds(records, f, r); } else { LastUsedAbove(records, f); }
    }
    if LastUsed(records, f).Some? { var r := LastUsedIsReal(records, f); }
  }

  lemma {:induction false} LastUsedAbove(records: seq<UsageRecord>, f: Name)
    ensures LastUsed(records, f).Some? ==> LastUsed(records, f).value > DISTANT_PAST
    decreases |records|
  {
    if records != [] { LastUsedAbove(records[..|records| - 1], f); }
  }

  /** The usage column of buildHourBuckets. */
  method BuildUsageHours(records: seq<UsageRecord>) returns (hours: seq<int>)
    ensures |hours| == 24 && forall h :: 0 <= h < 24 ==> hours[h] == Sum(records, AtHour(h))
  {
    var usage: map<int, int> := map[];
    for i := 0 to |records|
      invariant forall h :: Get(usage, h) == Sum(records[..i], AtHour(h))
    {
      var r := records[i];
      forall h
        ensures Sum(records[..i + 1], AtHour(h)) ==
                Sum(records[..i], AtHour(h)) + (if r.hour == h then r.count else 0) {
        SumOneMore(records, i, AtHour(h));
      }
      hide Sum, AtHour;
      usage := usage[r.hour := Get(usage, r.hour) + r.count];
    }
    assert records[..|records|] == records;
    hours := seq(24, h requires 0 <= h < 24 => Get(usage, h));
  }

  /** The calendar export loop of buildCategoryStats. */
  method CountExports(records: seq<UsageRecord>) returns (exports: map<Name, int>)
    ensures forall c :: Get(exports, c) == Sum(records, ExportsOf(c))
  {
    exports := map[];
    for i := 0 to |records|
      invariant forall c :: Get(exports, c) == Sum(records[..i], ExportsOf(c))
    {
      var r := records[i];
      forall c
        ensures Sum(records[..i + 1], ExportsOf(c))
             == Sum(records[..i], ExportsOf(c)) + r.count * Exports(r.featureKey, r.categoryIds, c)
      {
        SumOneMore(records, i, ExportsOf(c));
      }
      hide Sum, ExportsOf;
      exports := CountExport(exports, r);
    }
    assert records[..|records|] == records;
  }

  /** A calendar export counts once for each time a category is named, and without categories for "uncategorized". */
  lemma ExportsAre(feature: Name, categoryIds: seq<Name>, c: Name)
    ensures Exports(feature, categoryIds, c) ==
              if feature.text != "calendar_export_initiated" then 0
              else if |categoryIds| > 0 then multiset(categoryIds)[c]
              else if c.text == "uncategorized" then 1 else 0
  {
  }

  /** One record of that loop. */
  method CountExport(before: map<Name, int>, r: UsageRecord) returns (exports: map<Name, int>)
    ensures forall c :: Get(exports, c) == Get(before, c) + r.count * Exports(r.featureKey, r.categoryIds, c)
  {
    exports := before;
    if r.featureKey != CALENDAR_EXPORT {
    } else if r.categoryIds == [] {
      exports := exports[UNCATEGORIZED := Get(exports, UNCATEGORIZED) + r.count];
    } else {
      for j := 0 to |r.categoryIds|
        invariant forall c :: Get(exports, c) == Get(before, c) + r.count * multiset(r.categoryIds[..j])[c]
      {
        var id := r.categoryIds[j];
        assert r.categoryIds[..j + 1] == r.categoryIds[..j] + [id];
        CountMore(r.count, multiset(r.categoryIds[..j])[id]);
        exports := exports[id := Get(exports, id) + r.count];
      }
      assert r.categoryIds[..|r.categoryIds|] == r.categoryIds;
    }
  }

  lemma CountMore(count: int, n: int)
    ensures count * (n + 1) == count * n + count
  {
  }

  // ------------------------------------------------------------------- results

  lemma FeatureAgrees(scope: string, cap: int, s: ScopeState, history: seq<UsageEvent>, calendarOffset: int, f: Name)
    requires ScopeInv(scope, cap, s, history) && Unmixed(scope, history)
    ensures Sum(Normalized(s, calendarOffset), OfFeature(f)) ==
            Sum(Normalized(Full(history), calendarOffset), OfFeature(f))
  {
    hide Sum, StandsFor, Unmixed, AllStem, DistinctKeys;
    var tagWeight := (t: Tag) => if t.featureKey == f then 1 else 0;
    assert StandsFor(s, history, tagWeight);
    SameReading(s, history, calendarOffset, OfFeature(f), tagWeight);
  }

  lemma HourAgrees(scope: string, cap: int, s: ScopeState, history: seq<UsageEvent>, calendarOffset: int, h: int)
    requires ScopeInv(scope, cap, s, history) && Unmixed(scope, history)
    ensures Sum(Normalized(s, calendarOffset), AtHour(h)) == Sum(Normalized(Full(history), calendarOffset), AtHour(h))
  {
    hide Sum, StandsFor, Unmixed, AllStem, DistinctKeys;
    var tagWeight := (t: Tag) => if t.hour == h then 1 else 0;
    assert StandsFor(s, history, tagWeight);
    SameReading(s, history, calendarOffset, AtHour(h), tagWeight);
  }

  lemma ExportsAgree(scope: string, cap: int, s: ScopeState, history: seq<UsageEvent>, calendarOffset: int, c: Name)
    requires ScopeInv(scope, cap, s, history) && Unmixed(scope, history)
    ensures Sum(Normalized(s, calendarOffset), ExportsOf(c)) ==
            Sum(Normalized(Full(history), calendarOffset), ExportsOf(c))
  {
    hide Sum, StandsFor, Unmixed, AllStem, DistinctKeys, Exports;
    var tagWeight := (t: Tag) => Exports(t.featureKey, t.categoryIds, c);
    assert StandsFor(s, history, tagWeight);
    SameReading(s, history, calendarOffset, ExportsOf(c), tagWeight);
  }

  /** The three counts of a log that never looks behind the present. */
  ghost predicate SameCounts(kept: seq<UsageRecord>, all: seq<UsageRecord>) {
    && (forall f :: Sum(kept, OfFeature(f)) == Sum(all, OfFeature(f)))
    && (forall h :: Sum(kept, AtHour(h)) == Sum(all, AtHour(h)))
    && (forall c :: Sum(kept, ExportsOf(c)) == Sum(all, ExportsOf(c)))
  }

  lemma CountsAgree(scope: string, cap: int, s: ScopeState, history: seq<UsageEvent>, calendarOffset: int)
    requires ScopeInv(scope, cap, s, history) && Unmixed(scope, history)
    ensures SameCounts(Normalized(s, calendarOffset), Normalized(Full(history), calendarOffset))
  {
    hide Sum, Normalized, ScopeInv, Unmixed, OfFeature, AtHour, ExportsOf;
    var kept, all := Normalized(s, calendarOffset), Normalized(Full(history), calendarOffset);
    forall f ensures Sum(kept, OfFeature(f)) == Sum(all, OfFeature(f)) {
      FeatureAgrees(scope, cap, s, history, calendarOffset, f);
    }
    forall h ensures Sum(kept, AtHour(h)) == Sum(all, AtHour(h)) {
      HourAgrees(scope, cap, s, history, calendarOffset, h);
    }
    forall c ensures Sum(kept, ExportsOf(c)) == Sum(all, ExportsOf(c)) {
      ExportsAgree(scope, cap, s, history, calendarOffset, c);
    }
  }

  /** Compaction is invisible: after any run of recordings every all-time count per feature, the usage histogram
      and every export count per category are those of the full history, unless events mix. */
  lemma CompactionIsInvisible(scope: string, cap: int, batch: int, states: seq<ScopeState>, history: seq<UsageEvent>,
                              calendarOffset: int)
    requires cap >= 1 && Recording(scope, cap, batch, states, history) && Unmixed(scope, history)
    ensures SameCounts(Normalized(states[|history|], calendarOffset), Normalized(Full(history), calendarOffset))
  {
    hide ScopeInv, Unmixed, SameCounts;
    RecordingKeepsInv(scope, cap, batch, states, history);
    CountsAgree(scope, cap, states[|history|], history, calendarOffset);
  }

  /** The same for every scope of a store: names without a bar and category ids without a comma, which is what
      Record preserves, keep its reports those of everything that was ever recorded. */
  lemma StoreReportsHistory(store: InsightsTelemetryStore, scope: Name, calendarOffset: int)
    requires store.Valid() && scope in store.states && PlainEvents(store.history[scope])
    ensures SameCounts(Normalized(store.states[scope], calendarOffset),
                       Normalized(Full(store.history[scope]), calendarOffset))
  {
    hide ScopeInv, PlainEvents, SameCounts;
    PlainUnmixed(scope.text, store.history[scope]);
    CountsAgree(scope.text, store.rawEventCap, store.states[scope], store.history[scope], calendarOffset);
  }

  // ------------------------------------------------------------ a visible compaction

  function BarEvent(eventName: string, featureKey: string): UsageEvent {
    UsageEvent(Name(""), Name(eventName), Name(featureKey), 0, 0, None, None, [], None, map[], Name("anonymous"))
  }

  lemma FeatureSum(s: ScopeState, calendarOffset: int, f: Name)
    ensures var weight := (t: Tag) => if t.featureKey == f then 1 else 0;
            Sum(Normalized(s, calendarOffset), OfFeature(f))
            == RawTotal(s.rawEvents, weight) + BucketTotal(s.aggregateBuckets, weight)
  {
    hide Sum, RawTotal, BucketTotal;
    var weight := (t: Tag) => if t.featureKey == f then 1 else 0;
    SumAppend(EventRecords(s.rawEvents, calendarOffset), BucketRecords(s.aggregateBuckets, calendarOffset),
              OfFeature(f));
    EventSum(s.rawEvents, calendarOffset, OfFeature(f), weight);
    BucketSum(s.aggregateBuckets, calendarOffset, OfFeature(f), weight);
  }

  /** With a bar in two names, three recordings and room for one event, a feature that was used once is reported
      as never used. */
  lemma BarsHideUsage(calendarOffset: int)
    ensures var e, f := BarEvent("a|b", "c"), BarEvent("a", "b|c");
            var states, history := MixedStates("anonymous", e, f), MixedHistory(e, f);
            && Recording("anonymous", 1, 1, states, history)
            && Sum(Normalized(states[3], calendarOffset), OfFeature(Name("b|c"))) == 0
            && Sum(Normalized(Full(history), calendarOffset), OfFeature(Name("b|c"))) == 1
  {
    var e, f := BarEvent("a|b", "c"), BarEvent("a", "b|c");
    var weight := (t: Tag) => if t.featureKey == Name("b|c") then 1 else 0;
    BarsCollide("anonymous", EventTag(e).day, EventTag(e).hour);
    assert "b|c"[1] == '|' && |"c"| == 1;
    assert EventKey("anonymous", e) == EventKey("anonymous", f);
    MixedRecording("anonymous", e, f);
    MixedLoses("anonymous", e, f, weight);
    FeatureSum(MixedStates("anonymous", e, f)[3], calendarOffset, Name("b|c"));
    FeatureSum(Full(MixedHistory(e, f)), calendarOffset, Name("b|c"));
    assert BucketTotal([], weight) == 0;
  }

  // ------------------------------------------------------------- windowed counts

  /** The window of buildSnapshot: so many days up to and including today. */
  function WindowStart(now: int, days: int, calendarOffset: int): int {
    DayStart(DayOf(now, calendarOffset) - (days - 1), calendarOffset)
  }

  /** It begins at midnight, so many days before the end of today. */
  lemma WindowStartIs(now: int, days: int, calendarOffset: int)
    ensures var start := WindowStart(now, days, calendarOffset) + 60 * calendarOffset;
            && start % 86400 == 0
            && start + 86400 * (days - 1) <= now + 60 * calendarOffset < start + 86400 * days
  {
    var local := LocalSeconds(now, calendarOffset);
    var d, m := local / 86400, local % 86400;
    assert local == d * 86400 + m;
    assert WindowStart(now, days, calendarOffset) + 60 * calendarOffset == (d - (days - 1)) * 86400;
  }

  /** The hour of an event starts at most an hour before it, and on the same side of every midnight. */
  lemma HourStart(t: int, calendarOffset: int, day: int)
    ensures var start := BucketTime(DayOf(t, calendarOffset), HourOf(t, calendarOffset), calendarOffset);
            t - 3600 < start <= t && (DayStart(day, calendarOffset) <= start <==> DayStart(day, calendarOffset) <= t)
  {
    var local := LocalSeconds(t, calendarOffset);
    var d, m := local / 86400, local % 86400;
    assert local == d * 86400 + m;
    assert m == m / 3600 * 3600 + m % 3600;
  }

  predicate InOneZone(history: seq<UsageEvent>, calendarOffset: int, now: int) {
    forall e :: e in history ==> e.offsetMinutes == calendarOffset && e.timestamp <= now
  }

  /** The start of the event's hour, where a bucket puts it, is in the window just when the event is. */
  predicate KeepsSide(e: UsageEvent, calendarOffset: int, start: int, now: int) {
    Within(e.timestamp, start, now) <==>
    Within(BucketTime(EventTag(e).day, EventTag(e).hour, calendarOffset), start, now)
  }

  lemma OneZoneKeepsSide(history: seq<UsageEvent>, calendarOffset: int, now: int, days: int)
    requires InOneZone(history, calendarOffset, now)
    ensures forall e :: e in history ==> KeepsSide(e, calendarOffset, WindowStart(now, days, calendarOffset), now)
  {
    forall e | e in history ensures KeepsSide(e, calendarOffset, WindowStart(now, days, calendarOffset), now) {
      HourStart(e.timestamp, calendarOffset, DayOf(now, calendarOffset) - (days - 1));
    }
  }

  lemma WindowAgrees(scope: string, cap: int, s: ScopeState, history: seq<UsageEvent>, calendarOffset: int, start: int,
                     now: int, f: Name)
    requires ScopeInv(scope, cap, s, history) && Unmixed(scope, history)
    requires forall e :: e in history ==> KeepsSide(e, calendarOffset, start, now)
    ensures Sum(Normalized(s, calendarOffset), InWindow(f, start, now))
         == Sum(Normalized(Full(history), calendarOffset), InWindow(f, start, now))
  {
    hide Sum, StandsFor, Unmixed, AllStem, DistinctKeys;
    var tagWeight := (t: Tag) =>
      if t.featureKey == f && Within(BucketTime(t.day, t.hour, calendarOffset), start, now) then 1 else 0;
    forall e | e in history ensures InWindow(f, start, now)(EventRecord(e, calendarOffset)) == tagWeight(EventTag(e)) {
      assert KeepsSide(e, calendarOffset, start, now);
    }
    assert StandsFor(s, history, tagWeight);
    SameReading(s, history, calendarOffset, InWindow(f, start, now), tagWeight);
  }

  /** Every run over events from this set keeps every count of the window. */
  ghost predicate WindowAlwaysAgrees(scope: string, es: seq<UsageEvent>, calendarOffset: int, start: int, now: int) {
    forall cap: int, batch: int, states: seq<ScopeState>, history: seq<UsageEvent>, f: Name ::
      cap >= 1 && Recording(scope, cap, batch, states, history) && (forall e :: e in history ==> e in es)
      ==> Sum(Normalized(states[|history|], calendarOffset), InWindow(f, start, now))
          == Sum(Normalized(Full(history), calendarOffset), InWindow(f, start, now))
  }

  /** For events that do not mix, every run keeps the counts of a window exactly when no event is on the other side of
      one of its edges than the start of its hour. */
  lemma WindowAgreesIff(scope: string, es: seq<UsageEvent>, calendarOffset: int, start: int, now: int)
    requires Unmixed(scope, es)
    ensures WindowAlwaysAgrees(scope, es, calendarOffset, start, now)
       <==> forall e :: e in es ==> KeepsSide(e, calendarOffset, start, now)
  {
    hide Sum, Normalized, ScopeInv, KeepsSide, Compacts, EventKey, EventTag;
    if forall e :: e in es ==> KeepsSide(e, calendarOffset, start, now) {
      forall cap: int, batch: int, states: seq<ScopeState>, history: seq<UsageEvent>, f: Name |
        cap >= 1 && Recording(scope, cap, batch, states, history) && (forall e :: e in history ==> e in es)
        ensures Sum(Normalized(states[|history|], calendarOffset), InWindow(f, start, now))
             == Sum(Normalized(Full(history), calendarOffset), InWindow(f, start, now))
      {
        RecordingKeepsInv(scope, cap, batch, states, history);
        WindowAgrees(scope, cap, states[|history|], history, calendarOffset, start, now, f);
      }
    } else {
      var e :| e in es && !KeepsSide(e, calendarOffset, start, now);
      MixedRecording(scope, e, e);
      assert forall x :: x in MixedHistory(e, e) ==> x in es;
      MovedByHour(scope, e, calendarOffset, start, now);
    }
  }

  /** Three times such an event, with room for one: two are counted where their hour starts. */
  lemma MovedByHour(scope: string, e: UsageEvent, calendarOffset: int, start: int, now: int)
    requires !KeepsSide(e, calendarOffset, start, now)
    ensures var s := MixedStates(scope, e, e)[|MixedHistory(e, e)|];
            Sum(Normalized(s, calendarOffset), InWindow(e.featureKey, start, now))
            != Sum(Normalized(Full(MixedHistory(e, e)), calendarOffset), InWindow(e.featureKey, start, now))
  {
    var b := Single(scope, e).(count := 2);
    var r, k := EventRecord(e, calendarOffset), BucketRecord(b, calendarOffset);
    var w := InWindow(e.featureKey, start, now);
    assert w(r) != w(k) && r.count == 1 && k.count == 2;
    assert Normalized(MixedStates(scope, e, e)[3], calendarOffset) == [r, k];
    assert Normalized(Full(MixedHistory(e, e)), calendarOffset) == [r, r, r];
    SumOfThree(r, k, w);
  }

  lemma SumOfThree(r: UsageRecord, k: UsageRecord, w: UsageRecord -> int)
    ensures Sum([r, k], w) == r.count * w(r) + k.count * w(k)
    ensures Sum([r, r, r], w) == r.count * w(r) + r.count * w(r) + r.count * w(r)
  {
    assert [r, k][1..] == [k] && [k][1..] == [];
    assert [r, r, r][1..] == [r, r] && [r, r][1..] == [r] && [r][1..] == [];
    assert Sum([], w) == 0;
    assert Sum([r], w) == r.count * w(r) && Sum([k], w) == k.count * w(k);
    assert Sum([r, r], w) == r.count * w(r) + Sum([r], w);
  }

  // ------------------------------------------------------------ the time of last use

  lemma {:induction false} LastUsedBounds(records: seq<UsageRecord>, f: Name, r: UsageRecord)
    requires r in records && r.featureKey == f && r.timestamp > DISTANT_PAST
    ensures LastUsed(records, f).Some? && LastUsed(records, f).value >= r.timestamp
  {
    var n := |records| - 1;
    if r in records[..n] {
      LastUsedBounds(records[..n], f, r);
    } else {
      assert r == records[n];
    }
  }

  lemma {:induction false} LastUsedIsReal(records: seq<UsageRecord>, f: Name) returns (r: UsageRecord)
    requires LastUsed(records, f).Some?
    ensures r in records && r.featureKey == f && LastUsed(records, f) == Some(r.timestamp)
    ensures r.timestamp > DISTANT_PAST
  {
    var n := |records| - 1;
    if LastUsed(records, f) == LastUsed(records[..n], f) {
      r := LastUsedIsReal(records[..n], f);
    } else {
      r := records[n];
      if LastUsed(records[..n], f).Some? { var _ := LastUsedIsReal(records[..n], f); }
    }
  }

  /** The weight of one tag. */
  function Just(tag: Tag): Tag -> int {
    (t: Tag) => if t == tag then 1 else 0
  }

  lemma {:induction false} RawHas(es: seq<UsageEvent>, tag: Tag)
    ensures RawTotal(es, Just(tag)) >= 0
    ensures RawTotal(es, Just(tag)) > 0 <==> exists e :: e in es && EventTag(e) == tag
  {
    hide EventTag;
    if es != [] {
      RawHas(es[1..], tag);
      assert es[0] in es;
      assert forall e :: e in es <==> e == es[0] || e in es[1..];
    }
  }

  lemma {:induction false} BucketHas(bs: seq<Bucket>, tag: Tag)
    requires BucketTotal(bs, Just(tag)) != 0
    ensures exists b :: b in bs && BucketTag(b) == tag
  {
    hide BucketTag;
    assert bs[0] in bs;
    if BucketTag(bs[0]) != tag {
      BucketHas(bs[1..], tag);
      var b :| b in bs[1..] && BucketTag(b) == tag;
      assert b in bs;
    }
  }

  /** Events of one zone with the same tag are less than an hour apart. */
  lemma SameTagNear(e: UsageEvent, x: UsageEvent, calendarOffset: int)
    requires EventTag(x) == EventTag(e) && e.offsetMinutes == x.offsetMinutes == calendarOffset
    ensures x.timestamp > e.timestamp - 3600 && x.featureKey == e.featureKey
  {
    HourStart(e.timestamp, calendarOffset, 0);
    HourStart(x.timestamp, calendarOffset, 0);
  }

  /** A bucket's record is less than an hour older than every event it may count. */
  lemma SameTagBefore(e: UsageEvent, b: Bucket, calendarOffset: int)
    requires BucketTag(b) == EventTag(e) && e.offsetMinutes == calendarOffset
    ensures var r := BucketRecord(b, calendarOffset);
            r.featureKey == e.featureKey && e.timestamp - 3600 < r.timestamp <= e.timestamp
  {
    HourStart(e.timestamp, calendarOffset, 0);
  }

  lemma RawIsListed(s: ScopeState, calendarOffset: int, x: UsageEvent)
    requires x in s.rawEvents
    ensures EventRecord(x, calendarOffset) in Normalized(s, calendarOffset)
  {
    var i :| 0 <= i < |s.rawEvents| && s.rawEvents[i] == x;
    assert Normalized(s, calendarOffset)[i] == EventRecord(x, calendarOffset);
  }

  lemma BucketIsListed(s: ScopeState, calendarOffset: int, b: Bucket)
    requires b in s.aggregateBuckets
    ensures BucketRecord(b, calendarOffset) in Normalized(s, calendarOffset)
  {
    var i :| 0 <= i < |s.aggregateBuckets| && s.aggregateBuckets[i] == b;
    assert Normalized(s, calendarOffset)[|s.rawEvents| + i] == BucketRecord(b, calendarOffset);
  }

  /** What is kept has every tag of the history. */
  lemma TagIsKept(s: ScopeState, history: seq<UsageEvent>, e: UsageEvent)
    requires e in history && StandsFor(s, history, Just(EventTag(e)))
    ensures (exists x :: x in s.rawEvents && EventTag(x) == EventTag(e))
         || (exists b :: b in s.aggregateBuckets && BucketTag(b) == EventTag(e))
  {
    hide EventTag, BucketTag, RawTotal, BucketTotal;
    RawHas(history, EventTag(e));
    RawHas(s.rawEvents, EventTag(e));
    if RawTotal(s.rawEvents, Just(EventTag(e))) <= 0 {
      BucketHas(s.aggregateBuckets, EventTag(e));
    }
  }

  /** For every event of the history a record is kept that is less than an hour older. */
  lemma KeptNearby(scope: string, cap: int, s: ScopeState, history: seq<UsageEvent>, calendarOffset: int, now: int,
                   e: UsageEvent) returns (r: UsageRecord)
    requires ScopeInv(scope, cap, s, history) && Unmixed(scope, history) && InOneZone(history, calendarOffset, now)
    requires e in history
    ensures r in Normalized(s, calendarOffset) && r.featureKey == e.featureKey && r.timestamp > e.timestamp - 3600
  {
    hide EventTag, BucketTag, Normalized, StandsFor, AllStem, DistinctKeys, Unmixed, BucketRecord;
    TagIsKept(s, history, e);
    if exists x :: x in s.rawEvents && EventTag(x) == EventTag(e) {
      var x :| x in s.rawEvents && EventTag(x) == EventTag(e);
      assert x in history;
      SameTagNear(e, x, calendarOffset);
      RawIsListed(s, calendarOffset, x);
      r := EventRecord(x, calendarOffset);
    } else {
      var b :| b in s.aggregateBuckets && BucketTag(b) == EventTag(e);
      SameTagBefore(e, b, calendarOffset);
      BucketIsListed(s, calendarOffset, b);
      r := BucketRecord(b, calendarOffset);
    }
  }

  lemma ListedIsKept(s: ScopeState, calendarOffset: int, r: UsageRecord)
    requires r in Normalized(s, calendarOffset)
    ensures (exists x :: x in s.rawEvents && r == EventRecord(x, calendarOffset))
         || (exists b :: b in s.aggregateBuckets && r == BucketRecord(b, calendarOffset))
  {
    hide EventRecord, BucketRecord;
    var records := Normalized(s, calendarOffset);
    var i :| 0 <= i < |records| && records[i] == r;
    if i < |s.rawEvents| {
      assert s.rawEvents[i] in s.rawEvents;
    } else {
      assert s.aggregateBuckets[i - |s.rawEvents|] in s.aggregateBuckets;
    }
  }

  /** Every record that is kept is no younger than some event of its feature. */
  lemma KeptBehind(scope: string, cap: int, s: ScopeState, history: seq<UsageEvent>, calendarOffset: int, now: int,
                   r: UsageRecord) returns (e: UsageEvent)
    requires ScopeInv(scope, cap, s, history) && InOneZone(history, calendarOffset, now)
    requires r in Normalized(s, calendarOffset)
    ensures e in history && e.featureKey == r.featureKey && r.timestamp <= e.timestamp
  {
    hide EventTag, BucketTag, Normalized, StandsFor, DistinctKeys, Unmixed, BucketRecord, KeyOf, EventKey;
    ListedIsKept(s, calendarOffset, r);
    if exists x :: x in s.rawEvents && r == EventRecord(x, calendarOffset) {
      e :| e in s.rawEvents && r == EventRecord(e, calendarOffset);
      assert e in history;
    } else {
      var b :| b in s.aggregateBuckets && r == BucketRecord(b, calendarOffset);
      assert Stems(scope, b, history);
      e :| e in history && EventKey(scope, e) == KeyOf(scope, b) && EventTag(e) == BucketTag(b);
      SameTagBefore(e, b, calendarOffset);
    }
  }

  lemma EventIsListed(history: seq<UsageEvent>, calendarOffset: int, e: UsageEvent)
    requires e in history
    ensures EventRecord(e, calendarOffset) in Normalized(Full(history), calendarOffset)
  {
    var i :| 0 <= i < |history| && history[i] == e;
    assert Normalized(Full(history), calendarOffset)[i] == EventRecord(e, calendarOffset);
  }

  lemma ListedIsEvent(history: seq<UsageEvent>, calendarOffset: int, r: UsageRecord) returns (e: UsageEvent)
    requires r in Normalized(Full(history), calendarOffset)
    ensures e in history && r == EventRecord(e, calendarOffset)
  {
    var records := Normalized(Full(history), calendarOffset);
    var i :| 0 <= i < |records| && records[i] == r;
    e := history[i];
  }

  /** The reported time of last use is the true one, or less than an hour older. */
  predicate NearlySame(kept: Option<int>, all: Option<int>) {
    && (kept.Some? ==> all.Some? && kept.value <= all.value)
    && (all.Some? && all.value > DISTANT_PAST + 3600 ==> kept.Some? && kept.value > all.value - 3600)
  }

  lemma LastUseSurvives(scope: string, cap: int, s: ScopeState, history: seq<UsageEvent>, calendarOffset: int, now: int,
                        f: Name)
    requires ScopeInv(scope, cap, s, history) && Unmixed(scope, history) && InOneZone(history, calendarOffset, now)
    ensures NearlySame(LastUsed(Normalized(s, calendarOffset), f),
                       LastUsed(Normalized(Full(history), calendarOffset), f))
  {
    hide LastUsed, Normalized, ScopeInv, Unmixed;
    var kept, all := Normalized(s, calendarOffset), Normalized(Full(history), calendarOffset);
    if LastUsed(kept, f).Some? {
      var r := LastUsedIsReal(kept, f);
      var e := KeptBehind(scope, cap, s, history, calendarOffset, now, r);
      EventIsListed(history, calendarOffset, e);
      LastUsedBounds(all, f, EventRecord(e, calendarOffset));
    }
    if LastUsed(all, f).Some? {
      var r := LastUsedIsReal(all, f);
      var e := ListedIsEvent(history, calendarOffset, r);
      var q := KeptNearby(scope, cap, s, history, calendarOffset, now, e);
      if q.timestamp > DISTANT_PAST { LastUsedBounds(kept, f, q); }
    }
  }

  /** The same statistics, but for the rounding of the time of last use. */
  predicate Survives(kept: FeatureStat, all: FeatureStat) {
    kept == all.(lastUsedAt := kept.lastUsedAt) && NearlySame(kept.lastUsedAt, all.lastUsedAt)
  }

  /** When every event was recorded in the calendar's own zone and none lies in the future, the whole feature
      report survives: counts, windows and gap statuses exactly, times of last use within the hour. */
  lemma WindowsSurvive(scope: string, cap: int, batch: int, states: seq<ScopeState>, history: seq<UsageEvent>,
                       calendarOffset: int, now: int, days: int, catalog: seq<CatalogItem>)
    requires cap >= 1 && Recording(scope, cap, batch, states, history) && Unmixed(scope, history)
    requires InOneZone(history, calendarOffset, now)
    ensures var start := WindowStart(now, days, calendarOffset);
            var kept := FeatureStats(Normalized(states[|history|], calendarOffset), catalog, start, now);
            var all := FeatureStats(Normalized(Full(history), calendarOffset), catalog, start, now);
            forall i :: 0 <= i < |catalog| ==> Survives(kept[i], all[i])
  {
    hide Sum, Normalized, ScopeInv, Unmixed, OfFeature, InWindow, LastUsed, NearlySame, Percentile25, Gap;
    var s, start := states[|history|], WindowStart(now, days, calendarOffset);
    RecordingKeepsInv(scope, cap, batch, states, history);
    OneZoneKeepsSide(history, calendarOffset, now, days);
    var kept, all := Normalized(s, calendarOffset), Normalized(Full(history), calendarOffset);
    forall i | 0 <= i < |catalog|
      ensures WindowCounts(kept, catalog, start, now)[i] == WindowCounts(all, catalog, start, now)[i]
    {
      WindowAgrees(scope, cap, s, history, calendarOffset, start, now, catalog[i].key);
    }
    assert WindowCounts(kept, catalog, start, now) == WindowCounts(all, catalog, start, now);
    forall i | 0 <= i < |catalog|
      ensures Survives(FeatureStats(kept, catalog, start, now)[i], FeatureStats(all, catalog, start, now)[i])
    {
      FeatureAgrees(scope, cap, s, history, calendarOffset, catalog[i].key);
      LastUseSurvives(scope, cap, s, history, calendarOffset, now, catalog[i].key);
    }
  }
}
