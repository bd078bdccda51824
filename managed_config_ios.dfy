/** The managed app configuration on iOS (`EmmWrapper.managedConfig` and
    `managedConfigChaged`): the dictionary the EMM provider pushes into the
    standard defaults is copied into the app group's shared defaults, and
    listeners are told about it. */
module ManagedConfigIOS {
  import opened Wrappers

  /** A property-list value; dictionaries compare by contents. */
  datatype PlistValue = PString(s: string) | PInt(i: int) | PBool(b: bool)
  type Dict = map<string, PlistValue>

  const ConfigurationKey := "com.apple.configuration.managed"
  const ManagedConfigChangedEvent := "managedConfigChanged"

  /** The shared defaults of the app group, when one was opened, with the
      entry stored under the configuration key. */
  datatype SharedDefaults = NoSharedDefaults | SharedDefaults(entry: Option<Dict>)

  /** The effect of one change notification: the new shared defaults, whether
      an entry was written or removed, and the event payload when one is
      sent. */
  datatype SyncResult = SyncResult(shared: SharedDefaults, wrote: bool, removed: bool, event: Option<Dict>)

  /** The shared entry, or nothing when no shared defaults exist. */
  function SharedEntry(shared: SharedDefaults): Option<Dict> {
    if shared.SharedDefaults? then shared.entry else None
  }

  /** `managedConfigChaged(notification:)`, where `config` is what the
      standard defaults hold under the configuration key. */
  function ManagedConfigChanged(config: Option<Dict>, appGroupId: Option<string>, shared: SharedDefaults,
                                hasListeners: bool, hasDelegate: bool): (r: SyncResult)
    // no configuration: a stored shared copy is removed, nothing is sent
    ensures config.None? ==>
              && !r.wrote && r.event.None?
              && (r.removed <==> SharedEntry(shared).Some?)
              && SharedEntry(r.shared).None?
              && (shared.NoSharedDefaults? <==> r.shared.NoSharedDefaults?)
    // a configuration: written exactly when an app group is set, the shared
    // defaults exist and their copy (a missing one counting as empty) differs
    ensures config.Some? ==>
              && !r.removed
              && (r.wrote <==> appGroupId.Some? && shared.SharedDefaults?
                               && SharedEntry(shared).GetOr(map[]) != config.value)
              && (r.wrote ==> r.shared == SharedDefaults(config))
              && (!r.wrote ==> r.shared == shared)
    // the event carries the configuration, for listeners with a delegate
    ensures r.event.Some? <==> config.Some? && hasListeners && hasDelegate
    ensures r.event.Some? ==> r.event == config
  {
    if config.None? then
      var removed := SharedEntry(shared).Some?;
      SyncResult(if removed then SharedDefaults(None) else shared, false, removed, None)
    else
      var initial := SharedEntry(shared).GetOr(map[]);
      var equal := initial == config.value;
      var wrote := appGroupId.Some? && !equal && shared.SharedDefaults?;
      SyncResult(if wrote then SharedDefaults(config) else shared, wrote, false,
                 if hasListeners && hasDelegate then config else None)
  }

  /** After one notification, a second one with the same configuration
      writes and removes nothing and leaves the shared defaults as they are. */
  lemma SecondSyncWritesNothing(config: Option<Dict>, appGroupId: Option<string>, shared: SharedDefaults,
                                hasListeners: bool, hasDelegate: bool)
    ensures var first := ManagedConfigChanged(config, appGroupId, shared, hasListeners, hasDelegate);
            var second := ManagedConfigChanged(config, appGroupId, first.shared, hasListeners, hasDelegate);
            && !second.wrote && !second.removed
            && second.shared == first.shared
  {
  }

  /** An empty configuration is never copied into shared defaults that hold
      no copy, because a missing copy counts as empty. */
  lemma EmptyConfigNotCopied(appGroupId: Option<string>, hasListeners: bool, hasDelegate: bool)
    ensures !ManagedConfigChanged(Some(map[]), appGroupId, SharedDefaults(None), hasListeners, hasDelegate).wrote
  {
  }

  /** Without an app group nothing is ever written. */
  lemma NoAppGroupNoWrite(config: Option<Dict>, shared: SharedDefaults, hasListeners: bool, hasDelegate: bool)
    ensures !ManagedConfigChanged(config, None, shared, hasListeners, hasDelegate).wrote
  {
  }

  /** `getManagedConfig()`: the stored configuration, or an empty one. */
  function GetManagedConfig(config: Option<Dict>): (r: Dict)
    ensures config.Some? ==> r == config.value
    ensures config.None? ==> r == map[]
  {
    config.GetOr(map[])
  }
}
