/** The metadata half of LocalStore as an object: both reconciliations and the user's own changes. */
module MetadataStore {
  import opened Prelude
  import opened MetadataSync

  datatype FeatureState = Off | On | PendingSyncReconcile

  datatype FeaturePreference = FeaturePreference(isEnabled: bool, updatedAt: int, state: FeatureState)

  datatype HintState = HintState(
    showCount: int,
    dismissCount: int,
    lastShownAt: Option<int>,
    lastDismissedAt: Option<int>,
    interactedAt: Option<int>,
    updatedAt: int)

  function PreferenceEntry(p: FeaturePreference): Entry {
    Entry(Preference(p.isEnabled), p.updatedAt)
  }

  function HintEntry(h: HintState): Entry {
    Entry(Hint(h.showCount, h.dismissCount, h.lastShownAt, h.lastDismissedAt, h.interactedAt), h.updatedAt)
  }

  /** A document without a value or without a timestamp counts as none. */
  function RemotePreference(enabled: Option<bool>, updatedAt: Option<int>): Option<Entry> {
    if enabled.Some? && updatedAt.Some? then Some(Entry(Preference(enabled.value), updatedAt.value)) else None
  }

  function RemoteHint(remote: Option<HintState>): Option<Entry> {
    if remote.Some? then Some(HintEntry(remote.value)) else None
  }

  function Shown(enabled: bool): FeatureState {
    if enabled then On else Off
  }

  class LocalMetadata {
    var experimentalFeaturesPreference: FeaturePreference
    var hasStoredExperimentalPreference: bool
    var insightsHintState: HintState
    var hasStoredInsightsHintState: bool

    constructor ()
      ensures experimentalFeaturesPreference == FeaturePreference(false, 0, Off)
      ensures insightsHintState == HintState(0, 0, None, None, None, 0)
      ensures !hasStoredExperimentalPreference && !hasStoredInsightsHintState
    {
      experimentalFeaturesPreference := FeaturePreference(false, BASELINE, Off);
      insightsHintState := HintState(0, 0, None, None, None, BASELINE);
      hasStoredExperimentalPreference, hasStoredInsightsHintState := false, false;
    }

    method BeginExperimentalReconciliation()
      modifies this`experimentalFeaturesPreference
      ensures experimentalFeaturesPreference == old(experimentalFeaturesPreference).(state := PendingSyncReconcile)
    {
      experimentalFeaturesPreference := experimentalFeaturesPreference.(state := PendingSyncReconcile);
    }

    method ReconcileExperimentalPreference(remoteEnabled: Option<bool>, remoteUpdatedAt: Option<int>)
      returns (shouldPushLocal: bool)
      modifies this`experimentalFeaturesPreference, this`hasStoredExperimentalPreference
      ensures (PreferenceEntry(experimentalFeaturesPreference), shouldPushLocal)
           == Reconcile(old(PreferenceEntry(experimentalFeaturesPreference)), old(hasStoredExperimentalPreference),
                        RemotePreference(remoteEnabled, remoteUpdatedAt))
      ensures var p := old(experimentalFeaturesPreference); var q := experimentalFeaturesPreference;
              var known := remoteEnabled.Some? && remoteUpdatedAt.Some?;
              var newer := known && (!old(hasStoredExperimentalPreference) || remoteUpdatedAt.value > p.updatedAt);
              && q.isEnabled == (if newer then remoteEnabled.value else p.isEnabled)
              && q.updatedAt == (if newer then remoteUpdatedAt.value else p.updatedAt)
              && q.state == (if q.isEnabled then On else Off)
              && shouldPushLocal == (!newer && (known || old(hasStoredExperimentalPreference)))
      ensures hasStoredExperimentalPreference
    {
      var local := experimentalFeaturesPreference;
      shouldPushLocal := false;
      if remoteEnabled.Some? && remoteUpdatedAt.Some? {
        if !hasStoredExperimentalPreference {
          experimentalFeaturesPreference :=
            FeaturePreference(remoteEnabled.value, remoteUpdatedAt.value, Shown(remoteEnabled.value));
        } else if remoteUpdatedAt.value > local.updatedAt {
          experimentalFeaturesPreference :=
            FeaturePreference(remoteEnabled.value, remoteUpdatedAt.value, Shown(remoteEnabled.value));
        } else {
          shouldPushLocal := true;
          experimentalFeaturesPreference := experimentalFeaturesPreference.(state := Shown(local.isEnabled));
        }
      } else {
        experimentalFeaturesPreference := experimentalFeaturesPreference.(state := Shown(local.isEnabled));
        shouldPushLocal := hasStoredExperimentalPreference;
      }
      hasStoredExperimentalPreference := true;
    }

    method SetExperimentalFeaturesEnabled(enabled: bool, now: int)
      modifies this`experimentalFeaturesPreference, this`hasStoredExperimentalPreference
      ensures enabled != old(experimentalFeaturesPreference.isEnabled) ==>
                experimentalFeaturesPreference == FeaturePreference(enabled, now, if enabled then On else Off)
                && hasStoredExperimentalPreference
      ensures enabled == old(experimentalFeaturesPreference.isEnabled) ==>
                experimentalFeaturesPreference == old(experimentalFeaturesPreference)
                && hasStoredExperimentalPreference == old(hasStoredExperimentalPreference)
    {
      if experimentalFeaturesPreference.isEnabled == enabled { return; }
      experimentalFeaturesPreference := FeaturePreference(enabled, now, Shown(enabled));
      hasStoredExperimentalPreference := true;
    }

    method ReconcileInsightsHintState(remote: Option<HintState>) returns (shouldPushLocal: bool)
      modifies this`insightsHintState, this`hasStoredInsightsHintState
      ensures (HintEntry(insightsHintState), shouldPushLocal)
           == Reconcile(old(HintEntry(insightsHintState)), old(hasStoredInsightsHintState), RemoteHint(remote))
      ensures var newer := remote.Some? && (!old(hasStoredInsightsHintState)
                                            || remote.value.updatedAt > old(insightsHintState).updatedAt);
              && insightsHintState == (if newer then remote.value else old(insightsHintState))
              && shouldPushLocal == (!newer && (remote.Some? || old(hasStoredInsightsHintState)))
      ensures hasStoredInsightsHintState
    {
      var local := insightsHintState;
      shouldPushLocal := false;
      if remote.Some? {
        if !hasStoredInsightsHintState {
          insightsHintState := remote.value;
        } else if remote.value.updatedAt > local.updatedAt {
          insightsHintState := remote.value;
        } else {
          shouldPushLocal := true;
        }
      } else {
        shouldPushLocal := hasStoredInsightsHintState;
      }
      hasStoredInsightsHintState := true;
    }

    method RecordInsightsInteraction(now: int)
      modifies this`insightsHintState, this`hasStoredInsightsHintState
      ensures old(insightsHintState).interactedAt == None ==>
                insightsHintState == old(insightsHintState).(interactedAt := Some(now), updatedAt := now)
                && hasStoredInsightsHintState
      ensures old(insightsHintState).interactedAt != None ==>
                insightsHintState == old(insightsHintState)
                && hasStoredInsightsHintState == old(hasStoredInsightsHintState)
    {
      if insightsHintState.interactedAt != None { return; }
      insightsHintState := insightsHintState.(interactedAt := Some(now), updatedAt := now);
      hasStoredInsightsHintState := true;
    }
  }
}
