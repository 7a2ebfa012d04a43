/** The usage log over whole runs: every scope keeps a bounded tail of its history and buckets that stand for
    the rest, and recording in one scope touches no other. */
module TelemetryLog {
  import opened TelemetryKey
  import opened Telemetry
  import opened TelemetryStore

  // ----------------------------------------------------------- one scope over time

  /** Every total over the state is the total over the full history. */
  predicate StandsFor(s: ScopeState, history: seq<UsageEvent>, weight: Tag -> int) {
    RawTotal(s.rawEvents, weight) + BucketTotal(s.aggregateBuckets, weight) == RawTotal(history, weight)
  }

  /** A tail of the history is kept as it was. */
  predicate KeepsTail(s: ScopeState, history: seq<UsageEvent>) {
    |s.rawEvents| <= |history| && s.rawEvents == history[|history| - |s.rawEvents|..]
  }

  ghost predicate ScopeInv(scope: string, cap: int, s: ScopeState, history: seq<UsageEvent>) {
    && |s.rawEvents| <= cap
    && KeepsTail(s, history)
    && DistinctKeys(scope, s.aggregateBuckets)
    && AllStem(scope, s.aggregateBuckets, history)
    && StandsFor(s, history, Each)
    && (Unmixed(scope, history) ==> forall weight :: StandsFor(s, history, weight))
  }

  const EMPTY := ScopeState([], [])

  lemma FreshStands(weight: Tag -> int)
    ensures StandsFor(EMPTY, [], weight)
  {
  }

  lemma FreshInv(scope: string, cap: int)
    requires cap >= 0
    ensures ScopeInv(scope, cap, EMPTY, [])
  {
    hide StandsFor, KeyOf, Stems;
    FreshStands(Each);
    forall weight: Tag -> int ensures StandsFor(EMPTY, [], weight) {
      FreshStands(weight);
    }
  }

  /** The state with one more event, before it is compacted. */
  function Appended(s: ScopeState, e: UsageEvent): ScopeState {
    s.(rawEvents := s.rawEvents + [e])
  }

  lemma AppendedCount(s: ScopeState, e: UsageEvent)
    ensures |Appended(s, e).rawEvents| == |s.rawEvents| + 1
  {
  }

  lemma AppendStands(s: ScopeState, history: seq<UsageEvent>, e: UsageEvent, weight: Tag -> int)
    requires StandsFor(s, history, weight)
    ensures StandsFor(Appended(s, e), history + [e], weight)
  {
    hide BucketTotal, EventTag;
    RawTotalAppend(s.rawEvents, [e], weight);
    RawTotalAppend(history, [e], weight);
  }

  lemma FoldedDistinct(scope: string, cap: int, batch: int, s: ScopeState, s': ScopeState)
    requires cap >= 1 && DistinctKeys(scope, s.aggregateBuckets) && Compacts(scope, cap, batch, s, s')
    ensures DistinctKeys(scope, s'.aggregateBuckets)
  {
    if |s.rawEvents| > cap {
      var chunk := s.rawEvents[..ChunkSize(|s.rawEvents|, cap, batch)];
      PutAllDistinct(scope, s.aggregateBuckets);
      AddAllDistinct(scope, PutAll(scope, s.aggregateBuckets), chunk);
      hide KeyOf, AddAll, PutAll;
      RearrangedKeys(scope, s'.aggregateBuckets, AddAll(scope, PutAll(scope, s.aggregateBuckets), chunk));
    }
  }

  /** Compacting neither loses nor invents an event, whatever its name. */
  lemma FoldedCounts(scope: string, cap: int, batch: int, s: ScopeState, s': ScopeState)
    requires cap >= 1 && DistinctKeys(scope, s.aggregateBuckets) && Compacts(scope, cap, batch, s, s')
    ensures |s'.rawEvents| + BucketTotal(s'.aggregateBuckets, Each) ==
            |s.rawEvents| + BucketTotal(s.aggregateBuckets, Each)
  {
    if |s.rawEvents| > cap {
      var n := ChunkSize(|s.rawEvents|, cap, batch);
      PutAllIdentity(scope, s.aggregateBuckets);
      AddAllCounts(scope, s.aggregateBuckets, s.rawEvents[..n]);
      hide KeyOf, AddAll, PutAll, BucketTotal;
      RearrangedTotal(s'.aggregateBuckets, AddAll(scope, s.aggregateBuckets, s.rawEvents[..n]), Each);
    }
  }

  lemma FoldedStem(scope: string, cap: int, batch: int, s: ScopeState, s': ScopeState, es: seq<UsageEvent>)
    requires cap >= 1 && DistinctKeys(scope, s.aggregateBuckets) && Compacts(scope, cap, batch, s, s')
    requires AllStem(scope, s.aggregateBuckets, es) && forall e :: e in s.rawEvents ==> e in es
    ensures AllStem(scope, s'.aggregateBuckets, es)
  {
    hide KeyOf, AddAll, PutAll, AllStem, SortedBuckets, DistinctKeys, Rearranged;
    if |s.rawEvents| > cap {
      var chunk := s.rawEvents[..ChunkSize(|s.rawEvents|, cap, batch)];
      PutAllIdentity(scope, s.aggregateBuckets);
      AddAllStem(scope, s.aggregateBuckets, chunk, es);
      RearrangedStem(scope, s'.aggregateBuckets, AddAll(scope, s.aggregateBuckets, chunk), es);
    }
  }

  /** Compacting events that do not mix keeps every total. */
  lemma FoldedUnmixed(scope: string, cap: int, batch: int, s: ScopeState, s': ScopeState, es: seq<UsageEvent>,
                      weight: Tag -> int)
    requires cap >= 1 && DistinctKeys(scope, s.aggregateBuckets) && Compacts(scope, cap, batch, s, s')
    requires AllStem(scope, s.aggregateBuckets, es) && Unmixed(scope, es) && forall e :: e in s.rawEvents ==> e in es
    ensures RawTotal(s'.rawEvents, weight) + BucketTotal(s'.aggregateBuckets, weight)
         == RawTotal(s.rawEvents, weight) + BucketTotal(s.aggregateBuckets, weight)
  {
    hide KeyOf, AddAll, PutAll, BucketTotal, RawTotal, AllStem, Unmixed, SortedBuckets, DistinctKeys, Rearranged;
    if |s.rawEvents| > cap {
      var n := ChunkSize(|s.rawEvents|, cap, batch);
      var chunk, rest := s.rawEvents[..n], s.rawEvents[n..];
      assert s.rawEvents == chunk + rest;
      RawTotalAppend(chunk, rest, weight);
      PutAllIdentity(scope, s.aggregateBuckets);
      AddAllUnmixed(scope, s.aggregateBuckets, chunk, es, weight);
      RearrangedTotal(s'.aggregateBuckets, AddAll(scope, s.aggregateBuckets, chunk), weight);
    }
  }

  lemma TailKept(scope: string, cap: int, batch: int, s: ScopeState, s': ScopeState, history: seq<UsageEvent>,
                 e: UsageEvent)
    requires cap >= 1 && KeepsTail(s, history) && Compacts(scope, cap, batch, Appended(s, e), s')
    ensures KeepsTail(s', history + [e]) && |s'.rawEvents| <= cap
  {
    hide AddAll, PutAll, Rearranged, SortedBuckets;
    var longer := history + [e];
    var raw := s.rawEvents + [e];
    assert raw == longer[|longer| - |raw|..];
    if |raw| > cap {
      var n := ChunkSize(|raw|, cap, batch);
      assert raw[n..] == longer[|longer| - |raw| + n..];
    }
  }

  lemma UnmixedFront(scope: string, history: seq<UsageEvent>, e: UsageEvent)
    requires Unmixed(scope, history + [e])
    ensures Unmixed(scope, history)
  {
    hide EventKey, EventTag;
    assert forall x :: x in history ==> x in history + [e];
  }

  lemma StillStem(scope: string, bs: seq<Bucket>, history: seq<UsageEvent>, e: UsageEvent)
    requires AllStem(scope, bs, history)
    ensures AllStem(scope, bs, history + [e])
  {
    hide KeyOf, EventKey, EventTag, BucketTag;
    forall b | b in bs ensures Stems(scope, b, history + [e]) {
      assert Stems(scope, b, history);
      var f :| f in history && EventKey(scope, f) == KeyOf(scope, b) && EventTag(f) == BucketTag(b);
      assert f in history + [e];
    }
  }

  lemma HeldFromHistory(s: ScopeState, history: seq<UsageEvent>, e: UsageEvent)
    requires KeepsTail(s, history)
    ensures forall x :: x in Appended(s, e).rawEvents ==> x in history + [e]
  {
  }

  lemma RecordStands(scope: string, cap: int, batch: int, s: ScopeState, history: seq<UsageEvent>, e: UsageEvent,
                     s': ScopeState, weight: Tag -> int)
    requires cap >= 1 && ScopeInv(scope, cap, s, history) && Compacts(scope, cap, batch, Appended(s, e), s')
    requires Unmixed(scope, history + [e])
    ensures StandsFor(s', history + [e], weight)
  {
    hide Compacts, RawTotal, BucketTotal, DistinctKeys, AllStem, Unmixed;
    UnmixedFront(scope, history, e);
    StillStem(scope, s.aggregateBuckets, history, e);
    HeldFromHistory(s, history, e);
    AppendStands(s, history, e, weight);
    FoldedUnmixed(scope, cap, batch, Appended(s, e), s', history + [e], weight);
  }

  lemma RecordStems(scope: string, cap: int, batch: int, s: ScopeState, history: seq<UsageEvent>, e: UsageEvent,
                    s': ScopeState)
    requires cap >= 1 && ScopeInv(scope, cap, s, history) && Compacts(scope, cap, batch, Appended(s, e), s')
    ensures AllStem(scope, s'.aggregateBuckets, history + [e])
  {
    hide Compacts, DistinctKeys, AllStem, Unmixed, StandsFor;
    StillStem(scope, s.aggregateBuckets, history, e);
    HeldFromHistory(s, history, e);
    FoldedStem(scope, cap, batch, Appended(s, e), s', history + [e]);
  }

  lemma RecordCounts(scope: string, cap: int, batch: int, s: ScopeState, history: seq<UsageEvent>, e: UsageEvent,
                     s': ScopeState)
    requires cap >= 1 && ScopeInv(scope, cap, s, history) && Compacts(scope, cap, batch, Appended(s, e), s')
    ensures StandsFor(s', history + [e], Each)
    ensures |s'.rawEvents| + BucketTotal(s'.aggregateBuckets, Each) ==
            |s.rawEvents| + BucketTotal(s.aggregateBuckets, Each) + 1
  {
    hide Compacts, RawTotal, BucketTotal, DistinctKeys, AllStem, Unmixed, KeepsTail;
    FoldedCounts(scope, cap, batch, Appended(s, e), s');
    RawCounts(s.rawEvents);
    RawCounts(s'.rawEvents);
    RawCounts(history);
    RawCounts(history + [e]);
  }

  /** Recording one event keeps the invariant; the events held, raw or counted, grow by exactly one. */
  lemma RecordKeepsInv(scope: string, cap: int, batch: int, s: ScopeState, history: seq<UsageEvent>, e: UsageEvent,
                       s': ScopeState)
    requires cap >= 1 && ScopeInv(scope, cap, s, history) && Compacts(scope, cap, batch, Appended(s, e), s')
    ensures ScopeInv(scope, cap, s', history + [e])
    ensures |s'.rawEvents| + BucketTotal(s'.aggregateBuckets, Each) ==
            |s.rawEvents| + BucketTotal(s.aggregateBuckets, Each) + 1
  {
    hide Compacts, RawTotal, BucketTotal, DistinctKeys, AllStem, Unmixed, KeepsTail, StandsFor;
    TailKept(scope, cap, batch, s, s', history, e);
    FoldedDistinct(scope, cap, batch, Appended(s, e), s');
    RecordStems(scope, cap, batch, s, history, e, s');
    RecordCounts(scope, cap, batch, s, history, e, s');
    if Unmixed(scope, history + [e]) {
      forall weight: Tag -> int ensures StandsFor(s', history + [e], weight) {
        RecordStands(scope, cap, batch, s, history, e, s', weight);
      }
    }
  }

  /** The states that a fresh scope may go through while these events are recorded. */
  predicate Recording(scope: string, cap: int, batch: int, states: seq<ScopeState>, history: seq<UsageEvent>)
    requires cap >= 1
  {
    && |states| == |history| + 1 && states[0] == EMPTY
    && forall i :: 0 <= i < |history| ==> Compacts(scope, cap, batch, Appended(states[i], history[i]), states[i + 1])
  }

  /** Over any run of recordings from a fresh scope. */
  lemma {:induction false} RecordingKeepsInv(scope: string, cap: int, batch: int, states: seq<ScopeState>,
                                             history: seq<UsageEvent>)
    requires cap >= 1 && Recording(scope, cap, batch, states, history)
    ensures ScopeInv(scope, cap, states[|history|], history)
    decreases |history|
  {
    hide Compacts, ScopeInv;
    if history == [] {
      FreshInv(scope, cap);
    } else {
      var n := |history| - 1;
      RecordingKeepsInv(scope, cap, batch, states[..n + 1], history[..n]);
      RecordKeepsInv(scope, cap, batch, states[n], history[..n], history[n], states[n + 1]);
      assert history[..n] + [history[n]] == history;
    }
  }

  /** A log that is full folds a batch, and then none of the next batch - 1 recordings folds anything. */
  lemma {:induction false} FoldsAreRare(scope: string, cap: int, batch: int, states: seq<ScopeState>,
                                        history: seq<UsageEvent>, i: nat, k: nat)
    requires 1 <= batch <= cap && Recording(scope, cap, batch, states, history) && i + k < |history| && k < batch
    requires |states[i].rawEvents| == cap
    ensures |states[i + 1 + k].rawEvents| == cap + 1 - batch + k
    ensures k > 0 ==> states[i + 1 + k] == Appended(states[i + k], history[i + k])
    decreases k
  {
    hide Recording, Compacts, Appended;
    RecordedSize(scope, cap, batch, states, history, i + k);
    if k > 0 { FoldsAreRare(scope, cap, batch, states, history, i, k - 1); }
  }

  lemma RecordedSize(scope: string, cap: int, batch: int, states: seq<ScopeState>, history: seq<UsageEvent>, j: nat)
    requires 1 <= cap && Recording(scope, cap, batch, states, history) && j < |history|
    ensures |states[j + 1].rawEvents| == RawAfter(|states[j].rawEvents| + 1, cap, batch)
    ensures |states[j].rawEvents| < cap ==> states[j + 1] == Appended(states[j], history[j])
  {
    var s := Appended(states[j], history[j]);
    assert Compacts(scope, cap, batch, s, states[j + 1]);
    FoldedCount(scope, cap, batch, s, states[j + 1]);
  }

  // ------------------------------------------------------------ when totals survive

  /** Two events that mix, and the first one once more: the second is counted as the first. */
  function MixedHistory(e: UsageEvent, f: UsageEvent): seq<UsageEvent> {
    [e, f, e]
  }

  function MixedStates(scope: string, e: UsageEvent, f: UsageEvent): (states: seq<ScopeState>)
    ensures |states| == 4
  {
    var b := Single(scope, e);
    [EMPTY, ScopeState([e], []), ScopeState([f], [b]), ScopeState([e], [b.(count := 2)])]
  }

  lemma SortedOne(b: Bucket)
    ensures SortedBuckets([b])
  {
  }

  lemma FirstFolds(scope: string, e: UsageEvent)
    ensures AddAll(scope, PutAll(scope, []), [e]) == [Single(scope, e)]
  {
    hide KeyOf;
    assert [e][..0] == [];
  }

  lemma SecondFolds(scope: string, e: UsageEvent, f: UsageEvent)
    requires EventKey(scope, e) == EventKey(scope, f)
    ensures var b := Single(scope, e); AddAll(scope, PutAll(scope, [b]), [f]) == [b.(count := 2)]
  {
    hide KeyOf;
    var b := Single(scope, e);
    PutAllIdentity(scope, [b]);
    assert [f][..0] == [];
    assert EventKey(scope, f) == KeyOf(scope, b);
  }

  lemma FirstCompacts(scope: string, e: UsageEvent, f: UsageEvent)
    ensures Compacts(scope, 1, 1, Appended(ScopeState([e], []), f), ScopeState([f], [Single(scope, e)]))
  {
    FirstFolds(scope, e);
    SortedOne(Single(scope, e));
    hide AddAll, PutAll, Single, SortedBuckets;
    assert [e, f][1..] == [f] && [e, f][..1] == [e] && [e] + [f] == [e, f];
  }

  lemma SecondCompacts(scope: string, e: UsageEvent, f: UsageEvent)
    requires EventKey(scope, e) == EventKey(scope, f)
    ensures var b := Single(scope, e);
            Compacts(scope, 1, 1, Appended(ScopeState([f], [b]), e), ScopeState([e], [b.(count := 2)]))
  {
    SecondFolds(scope, e, f);
    SortedOne(Single(scope, e).(count := 2));
    hide AddAll, PutAll, Single, SortedBuckets;
    assert [f, e][1..] == [e] && [f, e][..1] == [f] && [f] + [e] == [f, e];
  }

  lemma MixedStep(scope: string, e: UsageEvent, f: UsageEvent, i: nat)
    requires EventKey(scope, e) == EventKey(scope, f) && i < 3
    ensures var states, history := MixedStates(scope, e, f), MixedHistory(e, f);
            Compacts(scope, 1, 1, Appended(states[i], history[i]), states[i + 1])
  {
    hide Single;
    if i == 0 {
      assert [] + [e] == [e];
    } else if i == 1 {
      FirstCompacts(scope, e, f);
    } else {
      SecondCompacts(scope, e, f);
    }
  }

  lemma MixedRecording(scope: string, e: UsageEvent, f: UsageEvent)
    requires EventKey(scope, e) == EventKey(scope, f)
    ensures Recording(scope, 1, 1, MixedStates(scope, e, f), MixedHistory(e, f))
  {
    hide Single, Compacts, Appended, EventKey;
    forall i | 0 <= i < 3
      ensures var states, history := MixedStates(scope, e, f), MixedHistory(e, f);
              Compacts(scope, 1, 1, Appended(states[i], history[i]), states[i + 1])
    {
      MixedStep(scope, e, f, i);
    }
  }

  /** Nothing that is kept has the tag of the second event. */
  lemma MixedLoses(scope: string, e: UsageEvent, f: UsageEvent, weight: Tag -> int)
    requires weight(EventTag(e)) == 0
    ensures var s := MixedStates(scope, e, f)[3];
            RawTotal(s.rawEvents, weight) + BucketTotal(s.aggregateBuckets, weight) == 0
            && RawTotal(MixedHistory(e, f), weight) == weight(EventTag(f))
  {
    var s := MixedStates(scope, e, f)[3];
    var b := Single(scope, e).(count := 2);
    assert BucketTag(b) == EventTag(e);
    hide EventTag, BucketTag, Single;
    assert [e][1..] == [] && [b][1..] == [];
    assert [e, f, e][1..] == [f, e] && [f, e][1..] == [e];
  }

  /** Every run over events from this set keeps every total. */
  ghost predicate AlwaysStands(scope: string, es: seq<UsageEvent>) {
    forall cap: int, batch: int, states: seq<ScopeState>, history: seq<UsageEvent>, weight: Tag -> int ::
      cap >= 1 && Recording(scope, cap, batch, states, history) && (forall e :: e in history ==> e in es)
      ==> StandsFor(states[|history|], history, weight)
  }

  lemma UnmixedStands(scope: string, es: seq<UsageEvent>, cap: int, batch: int, states: seq<ScopeState>,
                      history: seq<UsageEvent>, weight: Tag -> int)
    requires Unmixed(scope, es) && cap >= 1 && Recording(scope, cap, batch, states, history)
    requires forall e :: e in history ==> e in es
    ensures StandsFor(states[|history|], history, weight)
  {
    hide EventKey, EventTag, StandsFor, Recording, AllStem, DistinctKeys, KeepsTail;
    assert Unmixed(scope, history);
    RecordingKeepsInv(scope, cap, batch, states, history);
  }

  /** Compaction is exact on a set of events just when no two of them share a bucket key and differ in what the
      readers look at. */
  lemma StandsIffUnmixed(scope: string, es: seq<UsageEvent>)
    ensures AlwaysStands(scope, es) <==> Unmixed(scope, es)
  {
    hide EventKey, EventTag, StandsFor, Compacts, Single;
    if Unmixed(scope, es) {
      forall cap: int, batch: int, states: seq<ScopeState>, history: seq<UsageEvent>, weight: Tag -> int
        | cap >= 1 && Recording(scope, cap, batch, states, history) && (forall e :: e in history ==> e in es)
        ensures StandsFor(states[|history|], history, weight)
      {
        UnmixedStands(scope, es, cap, batch, states, history, weight);
      }
    } else {
      var e, f :| e in es && f in es && EventKey(scope, e) == EventKey(scope, f) && EventTag(e) != EventTag(f);
      var weight := (t: Tag) => if t == EventTag(f) then 1 else 0;
      MixedRecording(scope, e, f);
      MixedLoses(scope, e, f, weight);
      MixedFails(scope, e, f, weight);
    }
  }

  lemma MixedFails(scope: string, e: UsageEvent, f: UsageEvent, weight: Tag -> int)
    requires weight(EventTag(e)) == 0 && weight(EventTag(f)) == 1
    ensures !StandsFor(MixedStates(scope, e, f)[|MixedHistory(e, f)|], MixedHistory(e, f), weight)
  {
    hide EventTag;
    MixedLoses(scope, e, f, weight);
  }
}
