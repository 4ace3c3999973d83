/**
 * The update-settings screen: the spinner position shown for the stored
 * update policy, the policy stored for a chosen position with the analytics
 * event it logs, and the manual "update now" action. Analytics and the
 * subscription scheduler are modelled as logs of what was sent to them.
 */
module Updates {
  import opened SettingsData

  /** The spinner positions. */
  datatype UpdateConfigType = UpdateWifiOnly | UpdateAlways

  datatype AnalyticsEvent = AutomaticUpdatesWifi | AutomaticUpdatesAlways | ManualUpdate

  /** `toUpdateConfigType`: the Wi-Fi-only policy shows Wi-Fi only, anything else shows always. */
  function ToUpdateConfigType(config: UpdateConfig): (t: UpdateConfigType)
    ensures t == UpdateWifiOnly <==> config == WifiOnly
  {
    if config == WifiOnly then UpdateWifiOnly else UpdateAlways
  }

  /** `toUpdateConfig`: the inverse mapping. */
  function ToUpdateConfig(t: UpdateConfigType): (config: UpdateConfig)
    ensures config == WifiOnly <==> t == UpdateWifiOnly
  {
    if t == UpdateWifiOnly then WifiOnly else Always
  }

  /** Storing a spinner position and reading it back shows the same position, and the converse. */
  lemma UpdateConfigRoundTrip(t: UpdateConfigType, config: UpdateConfig)
    ensures ToUpdateConfigType(ToUpdateConfig(t)) == t
    ensures ToUpdateConfig(ToUpdateConfigType(config)) == config
  {
  }

  /** The event `setUpdateConfigType` logs for a position. */
  function EventFor(t: UpdateConfigType): (e: AnalyticsEvent)
    ensures e != ManualUpdate
    ensures e == AutomaticUpdatesWifi <==> t == UpdateWifiOnly
    ensures e == AutomaticUpdatesAlways <==> t == UpdateAlways
  {
    match t
    case UpdateWifiOnly => AutomaticUpdatesWifi
    case UpdateAlways => AutomaticUpdatesAlways
  }

  class UpdateSubscriptionsViewModel {
    const settingsRepository: DataStoreSettingsRepository
    /** Events sent to analytics, oldest first. */
    var events: seq<AnalyticsEvent>
    /** The `force` argument of every immediate update scheduled, oldest first. */
    var scheduledForce: seq<bool>

    constructor (settingsRepository: DataStoreSettingsRepository)
      ensures this.settingsRepository == settingsRepository && events == [] && scheduledForce == []
    {
      this.settingsRepository := settingsRepository;
      events := [];
      scheduledForce := [];
    }

    /** `updateType`: the spinner position for the stored policy. */
    function UpdateType(): (r: UpdateConfigType)
      reads settingsRepository
      ensures r == UpdateWifiOnly <==> settingsRepository.settings.updateConfig == WifiOnly
    {
      ToUpdateConfigType(settingsRepository.settings.updateConfig)
    }

    /** Stores the policy for the position and logs exactly the matching event. */
    method SetUpdateConfigType(configType: UpdateConfigType)
      modifies this, settingsRepository
      ensures settingsRepository.settings == WithUpdateConfig(old(settingsRepository.settings), ToUpdateConfig(configType))
      ensures events == old(events) + [EventFor(configType)]
      ensures scheduledForce == old(scheduledForce)
      ensures UpdateType() == configType
    {
      settingsRepository.SetUpdateConfig(ToUpdateConfig(configType));
      if configType == UpdateWifiOnly {
        events := events + [AutomaticUpdatesWifi];
      } else if configType == UpdateAlways {
        events := events + [AutomaticUpdatesAlways];
      }
      UpdateConfigRoundTrip(configType, settingsRepository.settings.updateConfig);
    }

    /** Schedules an immediate, forced update and logs the manual update. */
    method UpdateSubscriptions()
      modifies this
      ensures scheduledForce == old(scheduledForce) + [true]
      ensures events == old(events) + [ManualUpdate]
    {
      scheduledForce := scheduledForce + [true];
      events := events + [ManualUpdate];
    }
  }
}
