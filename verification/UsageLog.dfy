/** InsightsTelemetryStore as an object: one state per user scope, and the current scope. */
module UsageLog {
  import opened Prelude
  import opened Sorting
  import opened Texts
  import opened TelemetryKey
  import opened Telemetry
  import opened TelemetryStore
  import opened TelemetryLog

  const ANONYMOUS := Name("anonymous")

  /** normalizedScopeKey. */
  function NormalizedScope(raw: Option<Name>): Name {
    if raw.None? || AllBlank(raw.value.text) then ANONYMOUS else raw.value
  }

  /** An id that is not blank is a scope of its own; without one, or with a blank one, the scope is anonymous. */
  lemma ScopesAreApart(a: Name, b: Name)
    ensures NormalizedScope(None) == Name("anonymous")
    ensures AllBlank(a.text) ==> NormalizedScope(Some(a)) == Name("anonymous")
    ensures !AllBlank(a.text) ==> NormalizedScope(Some(a)) == a
    ensures !AllBlank(a.text) && !AllBlank(b.text) ==>
              (NormalizedScope(Some(a)) == NormalizedScope(Some(b)) <==> a == b)
  {
  }

  // ----------------------------------------------------------------- categories

  predicate NameFirst(a: Name, b: Name) {
    !StrLess(b.text, a.text)
  }

  lemma NameFirstTotal()
    ensures Total(NameFirst)
  {
    forall a: Name, b: Name ensures NameFirst(a, b) || NameFirst(b, a) {
      StrLessTotal(a.text, b.text);
    }
  }

  function NonEmpty(ids: seq<Name>): seq<Name> {
    if ids == [] then []
    else if ids[0].text == "" then NonEmpty(ids[1..])
    else [ids[0]] + NonEmpty(ids[1..])
  }

  /** categoryIds.filter { !$0.isEmpty }.sorted() */
  function NormalizedCategories(ids: seq<Name>): seq<Name> {
    Sort(NonEmpty(ids), NameFirst)
  }

  lemma {:induction false} NonEmptyOccurs(ids: seq<Name>, n: Name)
    ensures multiset(NonEmpty(ids))[n] == if n.text == "" then 0 else multiset(ids)[n]
  {
    if ids != [] {
      NonEmptyOccurs(ids[1..], n);
      assert ids == [ids[0]] + ids[1..];
    }
  }

  /** The stored ids are the non-empty ones that were given, each as often, in order. */
  lemma NormalizedCategoriesAre(ids: seq<Name>, n: Name)
    ensures InOrder(NormalizedCategories(ids), NameFirst)
    ensures multiset(NormalizedCategories(ids))[n] == if n.text == "" then 0 else multiset(ids)[n]
  {
    NameFirstTotal();
    SortInOrder(NonEmpty(ids), NameFirst);
    SortKeeps(NonEmpty(ids), NameFirst);
    NonEmptyOccurs(ids, n);
  }

  lemma NormalizedCategoriesPlain(ids: seq<Name>)
    requires forall n :: n in ids ==> ',' !in n.text
    ensures PlainCategories(NormalizedCategories(ids))
  {
    forall n | n in NormalizedCategories(ids) ensures n.text != "" && ',' !in n.text {
      NormalizedCategoriesAre(ids, n);
      assert n in multiset(NormalizedCategories(ids));
      assert n in multiset(ids);
    }
  }

  // ----------------------------------------------------------------- the store

  class InsightsTelemetryStore {
    const rawEventCap: int
    const compactionBatchSize: int
    const isEnabled: bool
    var currentScopeKey: Name
    var states: map<Name, ScopeState>
    /** Everything recorded in each scope since it was made or cleared. */
    ghost var history: map<Name, seq<UsageEvent>>

    ghost predicate Valid()
      reads this
    {
      && rawEventCap >= 1 && compactionBatchSize >= 1
      && currentScopeKey in states && history.Keys == states.Keys
      && forall k :: k in states ==> ScopeInv(k.text, rawEventCap, states[k], history[k])
    }

    /** Scopes other than the given one are as they were. */
    twostate predicate OthersUnchanged(scope: Name)
      reads this
    {
      && (forall k :: k in old(states) && k != scope ==>
            k in states && states[k] == old(states[k]) &&
            k in history && k in old(history) && history[k] == old(history[k]))
      && (forall k :: k in states && k != scope ==> k in old(states))
    }

    constructor (cap: int, batch: int, enabled: bool)
      ensures Valid() && isEnabled == enabled && rawEventCap == Max(1, cap) && compactionBatchSize == Max(1, batch)
      ensures currentScopeKey == Name("anonymous")
      ensures states == map[Name("anonymous") := ScopeState([], [])] && history == map[Name("anonymous") := []]
    {
      rawEventCap, compactionBatchSize, isEnabled := Max(1, cap), Max(1, batch), enabled;
      currentScopeKey, states, history := ANONYMOUS, map[ANONYMOUS := EMPTY], map[ANONYMOUS := []];
      new;
      hide ScopeInv;
      FreshInv(ANONYMOUS.text, rawEventCap);
    }

    method SetUserScope(userId: Option<Name>)
      requires Valid()
      modifies this
      ensures Valid() && OthersUnchanged(currentScopeKey)
      ensures currentScopeKey == if userId.None? || AllBlank(userId.value.text) then Name("anonymous") else userId.value
      ensures currentScopeKey in old(states) ==> states == old(states) && history == old(history)
      ensures currentScopeKey !in old(states) ==>
                states[currentScopeKey] == ScopeState([], []) && history[currentScopeKey] == []
    {
      hide ScopeInv;
      var scope := NormalizedScope(userId);
      if currentScopeKey == scope { return; }
      currentScopeKey := scope;
      if scope !in states {
        states := states[scope := EMPTY];
        history := history[scope := []];
        FreshInv(scope.text, rawEventCap);
      }
    }

    method ClearScopeData(scopeKey: Name)
      requires Valid()
      modifies this`states, this`history
      ensures Valid()
      ensures var scope := if AllBlank(scopeKey.text) then Name("anonymous") else scopeKey;
              OthersUnchanged(scope) && scope in states && states[scope] == ScopeState([], []) && history[scope] == []
    {
      hide ScopeInv, NormalizedScope, AllBlank;
      ScopesAreApart(scopeKey, scopeKey);
      var scope := NormalizedScope(Some(scopeKey));
      states := states[scope := EMPTY];
      history := history[scope := []];
      FreshInv(scope.text, rawEventCap);
    }

    /** The part of record that runs on the queue. */
    method Append(event: UsageEvent)
      requires Valid()
      modifies this`states, this`history
      ensures Valid() && OthersUnchanged(currentScopeKey)
      ensures history[currentScopeKey] == old(history[currentScopeKey]) + [event]
      ensures Compacts(currentScopeKey.text, rawEventCap, compactionBatchSize,
                       Appended(old(states[currentScopeKey]), event), states[currentScopeKey])
      ensures Held(states[currentScopeKey]) == old(Held(states[currentScopeKey])) + 1
      ensures |states[currentScopeKey].rawEvents| ==
                RawAfter(|old(states[currentScopeKey]).rawEvents| + 1, rawEventCap, compactionBatchSize)
    {
      hide ScopeInv, Held, Compacts, Appended;
      var scoped := states[currentScopeKey];
      var compacted := CompactIfNeeded(currentScopeKey.text, rawEventCap, compactionBatchSize, Appended(scoped, event));
      RecordHolds(currentScopeKey.text, rawEventCap, compactionBatchSize, scoped, history[currentScopeKey], event,
                  compacted);
      FoldedCount(currentScopeKey.text, rawEventCap, compactionBatchSize, Appended(scoped, event), compacted);
      AppendedCount(scoped, event);
      states := states[currentScopeKey := compacted];
      history := history[currentScopeKey := history[currentScopeKey] + [event]];
    }

    /** id is the fresh UUID of the event. */
    method Record(id: Name, eventName: Name, featureKey: Name, tabName: Option<Name>, viewName: Option<Name>,
                  categoryIds: seq<Name>, taskIdPolicyField: Option<Name>, metadata: map<Name, Name>,
                  timestamp: int, offsetMinutes: int)
      requires Valid()
      modifies this`states, this`history
      ensures Valid() && OthersUnchanged(currentScopeKey)
      ensures !isEnabled ==> states == old(states) && history == old(history)
      ensures isEnabled ==> history[currentScopeKey] == old(history[currentScopeKey]) + [
                UsageEvent(id, eventName, featureKey, timestamp, offsetMinutes, tabName, viewName,
                           NormalizedCategories(categoryIds), taskIdPolicyField, metadata, currentScopeKey)]
      ensures isEnabled ==> Held(states[currentScopeKey]) == old(Held(states[currentScopeKey])) + 1
      ensures isEnabled ==>
                |states[currentScopeKey].rawEvents| ==
                  RawAfter(|old(states[currentScopeKey]).rawEvents| + 1, rawEventCap, compactionBatchSize)
      ensures PlainInput(eventName, featureKey, tabName, viewName, categoryIds) ==>
                PlainEvents(old(history[currentScopeKey])) ==> PlainEvents(history[currentScopeKey])
    {
      hide ScopeInv, Held, NormalizedCategories, PlainEvents, PlainInput, Compacts, Appended;
      if !isEnabled { return; }
      var event := UsageEvent(id, eventName, featureKey, timestamp, offsetMinutes, tabName, viewName,
                              NormalizedCategories(categoryIds), taskIdPolicyField, metadata, currentScopeKey);
      Append(event);
      if PlainInput(eventName, featureKey, tabName, viewName, categoryIds) {
        RecordedPlain(old(history[currentScopeKey]), event, categoryIds);
      }
    }
  }

  /** Names without a bar and category ids without a comma. */
  predicate PlainInput(eventName: Name, featureKey: Name, tabName: Option<Name>, viewName: Option<Name>,
                       categoryIds: seq<Name>) {
    && '|' !in eventName.text && '|' !in featureKey.text && PlainName(tabName) && PlainName(viewName)
    && forall n :: n in categoryIds ==> ',' !in n.text
  }

  lemma RecordedPlain(history: seq<UsageEvent>, e: UsageEvent, categoryIds: seq<Name>)
    requires PlainInput(e.eventName, e.featureKey, e.tabName, e.viewName, categoryIds)
    requires e.categoryIds == NormalizedCategories(categoryIds)
    ensures PlainEvents(history) ==> PlainEvents(history + [e])
  {
    NormalizedCategoriesPlain(categoryIds);
    assert PlainEvent(e);
  }

  /** Events held in a scope, raw or counted. */
  function Held(s: ScopeState): int {
    |s.rawEvents| + BucketTotal(s.aggregateBuckets, Each)
  }

  lemma RecordHolds(scope: string, cap: int, batch: int, s: ScopeState, history: seq<UsageEvent>, e: UsageEvent,
                    s': ScopeState)
    requires cap >= 1 && ScopeInv(scope, cap, s, history) && Compacts(scope, cap, batch, Appended(s, e), s')
    ensures ScopeInv(scope, cap, s', history + [e]) && Held(s') == Held(s) + 1
  {
    hide ScopeInv, Compacts;
    RecordKeepsInv(scope, cap, batch, s, history, e, s');
  }
}
