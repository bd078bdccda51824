/** The Android module of `android/src/main` (`EmmModule`): device-credential
    authentication with one request at a time, the activity result that
    settles it, the managed configuration from the restrictions manager with
    change detection on resume, and the `FLAG_SECURE` switch. The
    restrictions the platform reports, the current activity and a failing
    launch are inputs. */
module AndroidMain {
  import opened Wrappers
  import opened Bundles
  import opened Promises

  const AuthRequest := 18864
  /** `Activity.RESULT_OK` and `Activity.RESULT_CANCELED`. */
  const ResultOk := -1
  const ResultCanceled := 0

  const EActivityDoesNotExist := "E_ACTIVITY_DOES_NOT_EXIST"
  const EAuthCancelled := "UserCancel"
  const EFailedToShowAuth := "E_FAILED_TO_SHOW_AUTH"
  const EOneReqAtATime := "E_ONE_REQ_AT_A_TIME"

  /** How starting the confirm-credential activity went. */
  datatype Launch = Launched | LaunchFailed(message: string)

  /** `authenticate(map, promise)` on the pending promise: the new pending
      promise and the settlement the call makes, if any. */
  function AuthenticateStep(pending: Option<Promise>, p: Promise, hasActivity: bool, launch: Launch): (r: (Option<Promise>, Option<Settlement>))
    // one request at a time: a pending promise is never replaced
    ensures pending.Some? ==> r.0 == pending && r.1 == Some(Settlement(p, Reject(EOneReqAtATime, "One auth request at a time")))
    // only the new promise is ever settled here, and a stored one is unsettled
    ensures r.1.Some? ==> r.1.value.promise == p && r.1.value.outcome.Reject?
    ensures r.0 != pending ==> r.0 == Some(p) && r.1.None?
    ensures r.0.Some? <==> pending.Some? || (hasActivity && launch.Launched?)
    ensures pending.None? && !hasActivity ==> r.1 == Some(Settlement(p, Reject(EActivityDoesNotExist, "Activity does not exist")))
    ensures pending.None? && hasActivity && launch.LaunchFailed? ==>
              r.1 == Some(Settlement(p, Reject(EFailedToShowAuth, launch.message)))
  {
    if pending.Some? then (pending, Some(Settlement(p, Reject(EOneReqAtATime, "One auth request at a time"))))
    else if !hasActivity then (None, Some(Settlement(p, Reject(EActivityDoesNotExist, "Activity does not exist"))))
    else match launch
      case Launched => (Some(p), None)
      case LaunchFailed(message) => (None, Some(Settlement(p, Reject(EFailedToShowAuth, message))))
  }

  /** The activity result listener on the pending promise. */
  function ActivityResultStep(pending: Option<Promise>, requestCode: int, resultCode: int): (r: (Option<Promise>, Option<Settlement>))
    ensures requestCode != AuthRequest || pending.None? ==> r == (pending, None)
    ensures requestCode == AuthRequest && pending.Some? ==>
              && r.0.None?
              && (r.1.Some? <==> resultCode == ResultCanceled || resultCode == ResultOk)
              && (r.1.Some? ==> r.1.value.promise == pending.value)
              && (r.1.Some? ==> (r.1.value.outcome == Resolve(true) <==> resultCode == ResultOk))
              && (resultCode == ResultCanceled ==> r.1.value.outcome == Reject(EAuthCancelled, "User canceled"))
  {
    if requestCode != AuthRequest || pending.None? then (pending, None)
    else if resultCode == ResultCanceled then (None, Some(Settlement(pending.value, Reject(EAuthCancelled, "User canceled"))))
    else if resultCode == ResultOk then (None, Some(Settlement(pending.value, Resolve(true))))
    else (None, None)
  }

  /** A started request is settled by its matching result, once: a later
      result settles nothing. */
  lemma {:induction false} SettledOnce(p: Promise, resultCode: int, requestCode2: int, resultCode2: int)
    ensures var (pending, s) := AuthenticateStep(None, p, true, Launched);
            var (after, settled) := ActivityResultStep(pending, AuthRequest, resultCode);
            && s.None?
            && (settled.Some? ==> settled.value.promise == p)
            && ActivityResultStep(after, requestCode2, resultCode2).1.None?
  {
  }

  /** A promise stored by `authenticate` is the only one a result can
      settle, until it is settled and cleared. */
  lemma {:induction false} ResultSettlesPending(pending: Option<Promise>, p: Promise, hasActivity: bool, launch: Launch,
                                                requestCode: int, resultCode: int)
    ensures var (stored, _) := AuthenticateStep(pending, p, hasActivity, launch);
            var (_, settled) := ActivityResultStep(stored, requestCode, resultCode);
            settled.Some? ==> stored.Some? && settled.value.promise == stored.value
  {
  }

  /** `loadManagedConfig`'s result: null for null or empty restrictions. */
  function LoadResult(restrictions: Option<Bundle>): (r: Option<Bundle>)
    ensures r.Some? <==> restrictions.Some? && |restrictions.value.entries| > 0
    ensures r.Some? ==> r == restrictions
  {
    if restrictions.Some? && |restrictions.value.entries| > 0 then restrictions else None
  }

  /** What `Arguments.fromBundle` makes of a configuration; a null one
      becomes the empty map. */
  function Payload(config: Option<Bundle>): (m: map<string, Value>)
    ensures config.None? ==> m == map[]
    ensures config.Some? ==> m == config.value.entries
  {
    if config.Some? then config.value.entries else map[]
  }

  /** Whether `onHostResume` emits, for the restrictions now reported and
      the stored configuration. */
  predicate ResumeEmits(restrictions: Option<Bundle>, stored: Option<Bundle>) {
    !BundlesEqual(LoadResult(restrictions), stored)
  }

  /** The stored configuration is the raw bundle while the compared one is
      null when empty: with empty restrictions every resume emits. */
  lemma EmptyRestrictionsAlwaysEmit(now: Bundle, stored: Bundle)
    requires |now.entries| == 0
    ensures ResumeEmits(Some(now), Some(stored))
  {
  }

  /** Restrictions reported as a new bundle object whose entries are the
      same values as before (equal primitives, the very same array objects)
      do not emit. */
  lemma {:induction false} UnchangedFlatRestrictionsQuiet(now: Bundle, stored: Bundle)
    requires |now.entries| > 0 && now.entries == stored.entries
    requires forall k | k in now.entries :: !now.entries[k].Nested?
    ensures !ResumeEmits(Some(now), Some(stored))
  {
    EqualIsShallow(now, stored);
  }

  /** Restrictions holding an array, reported as a new array object, emit
      on every resume, even when unchanged. */
  lemma {:induction false} ArrayRestrictionsAlwaysEmit(key: string, id1: nat, id2: nat, idA: nat, idB: nat)
    requires id1 != id2
    ensures ResumeEmits(Some(Bundle(idA, map[key := Arr(id1)])), Some(Bundle(idB, map[key := Arr(id2)])))
  {
    ArrayCopiesDiffer(key, id1, id2, idA, idB);
  }

  /** Restrictions holding a nested bundle, reported as new objects, emit on
      every resume, even when unchanged. */
  lemma {:induction false} NestedRestrictionsAlwaysEmit(key: string, inner: map<string, Value>, id1: nat, id2: nat, idA: nat, idB: nat)
    requires id1 != id2
    ensures ResumeEmits(Some(Bundle(idA, map[key := Nested(Bundle(id1, inner))])),
                        Some(Bundle(idB, map[key := Nested(Bundle(id2, inner))])))
  {
    NestedCopiesDiffer(key, inner, id1, id2, idA, idB);
  }

  /** The answer of `deviceSecureWith`. */
  datatype SecureWith = SecureWith(face: bool, fingerprint: bool, passcode: bool)

  /** `deviceSecureWith`: face and fingerprint both report whether
      biometrics can authenticate, passcode whether the device is secure. */
  function DeviceSecureWith(hasBiometrics: bool, isDeviceSecure: bool): (r: SecureWith)
    ensures r.face == r.fingerprint == hasBiometrics
    ensures r.passcode == isDeviceSecure
  {
    SecureWith(hasBiometrics, hasBiometrics, isDeviceSecure)
  }

  class EmmModule {
    var blurEnabled: bool
    var managedConfig: Option<Bundle>
    var authPromise: Option<Promise>
    /** `FLAG_SECURE` on the current activity's window. */
    var secureFlag: bool
    /** Payloads of the `managedConfigChanged` events, oldest first. */
    var events: seq<map<string, Value>>
    /** Promises settled, oldest first. */
    var settlements: seq<Settlement>

    /** The module's `init`: the configuration is loaded and stored. */
    constructor (restrictions: Option<Bundle>)
      ensures !blurEnabled && managedConfig == restrictions && authPromise.None?
      ensures !secureFlag && events == [] && settlements == []
    {
      blurEnabled := false;
      managedConfig := restrictions;
      authPromise := None;
      secureFlag := false;
      events := [];
      settlements := [];
    }

    /** `loadManagedConfig(ctx, global)`. */
    method LoadManagedConfig(restrictions: Option<Bundle>, global: bool) returns (r: Option<Bundle>)
      modifies this
      ensures r == LoadResult(restrictions)
      ensures managedConfig == if global then restrictions else old(managedConfig)
      ensures blurEnabled == old(blurEnabled) && authPromise == old(authPromise) && secureFlag == old(secureFlag)
      ensures events == old(events) && settlements == old(settlements)
    {
      if global {
        managedConfig := restrictions;
      }
      if restrictions.Some? && |restrictions.value.entries| > 0 {
        return restrictions;
      }
      return None;
    }

    /** `sendConfigChanged(config)`; nothing is sent without an emitter. */
    method SendConfigChanged(config: Option<Bundle>, hasEmitter: bool)
      modifies this
      ensures events == old(events) + (if hasEmitter then [Payload(config)] else [])
      ensures blurEnabled == old(blurEnabled) && managedConfig == old(managedConfig)
      ensures authPromise == old(authPromise) && secureFlag == old(secureFlag) && settlements == old(settlements)
    {
      var result := map[];
      if config.Some? {
        result := config.value.entries;
      }
      if hasEmitter {
        events := events + [result];
      }
    }

    /** The restrictions receiver: reload, store, and send. */
    method OnReceive(restrictions: Option<Bundle>, hasEmitter: bool)
      modifies this
      ensures managedConfig == restrictions
      ensures events == old(events) + (if hasEmitter then [Payload(LoadResult(restrictions))] else [])
      ensures blurEnabled == old(blurEnabled) && authPromise == old(authPromise)
      ensures secureFlag == old(secureFlag) && settlements == old(settlements)
    {
      var managed := LoadManagedConfig(restrictions, true);
      SendConfigChanged(managed, hasEmitter);
    }

    /** `onHostResume()`: the reloaded configuration is compared with the
        stored one, which stays as it is, and the window flag is applied. */
    method OnHostResume(restrictions: Option<Bundle>, hasWindow: bool, hasEmitter: bool)
      modifies this
      ensures managedConfig == old(managedConfig)
      ensures events == old(events) +
                (if ResumeEmits(restrictions, old(managedConfig)) && hasEmitter then [Payload(LoadResult(restrictions))] else [])
      ensures secureFlag == if hasWindow then blurEnabled else old(secureFlag)
      ensures blurEnabled == old(blurEnabled) && authPromise == old(authPromise) && settlements == old(settlements)
    {
      var managed := LoadManagedConfig(restrictions, false);
      var equal := EqualBundles(managed, managedConfig);
      if !equal {
        SendConfigChanged(managed, hasEmitter);
      }
      HandleBlurScreen(hasWindow);
    }

    /** `handleBlurScreen()`: sets or clears `FLAG_SECURE` on the current
        activity's window, if there is one. */
    method HandleBlurScreen(hasWindow: bool)
      modifies this
      ensures secureFlag == if hasWindow then blurEnabled else old(secureFlag)
      ensures blurEnabled == old(blurEnabled) && managedConfig == old(managedConfig) && authPromise == old(authPromise)
      ensures events == old(events) && settlements == old(settlements)
    {
      if hasWindow {
        secureFlag := blurEnabled;
      }
    }

    /** `enableBlurScreen(enabled)`. */
    method EnableBlurScreen(enabled: bool, hasWindow: bool)
      modifies this
      ensures blurEnabled == enabled
      ensures secureFlag == if hasWindow then enabled else old(secureFlag)
      ensures managedConfig == old(managedConfig) && authPromise == old(authPromise)
      ensures events == old(events) && settlements == old(settlements)
    {
      blurEnabled := enabled;
      HandleBlurScreen(hasWindow);
    }

    /** `authenticate(map, promise)`. */
    method Authenticate(p: Promise, hasActivity: bool, launch: Launch)
      modifies this
      ensures var (pending, s) := AuthenticateStep(old(authPromise), p, hasActivity, launch);
              && authPromise == pending
              && settlements == old(settlements) + (if s.Some? then [s.value] else [])
      ensures blurEnabled == old(blurEnabled) && managedConfig == old(managedConfig)
      ensures secureFlag == old(secureFlag) && events == old(events)
    {
      if authPromise.Some? {
        settlements := settlements + [Settlement(p, Reject(EOneReqAtATime, "One auth request at a time"))];
        return;
      }
      if !hasActivity {
        settlements := settlements + [Settlement(p, Reject(EActivityDoesNotExist, "Activity does not exist"))];
        return;
      }
      authPromise := Some(p);
      if launch.LaunchFailed? {
        settlements := settlements + [Settlement(authPromise.value, Reject(EFailedToShowAuth, launch.message))];
        authPromise := None;
      }
    }

    /** The activity result listener. */
    method OnActivityResult(requestCode: int, resultCode: int)
      modifies this
      ensures var (pending, s) := ActivityResultStep(old(authPromise), requestCode, resultCode);
              && authPromise == pending
              && settlements == old(settlements) + (if s.Some? then [s.value] else [])
      ensures blurEnabled == old(blurEnabled) && managedConfig == old(managedConfig)
      ensures secureFlag == old(secureFlag) && events == old(events)
    {
      if requestCode != AuthRequest || authPromise.None? {
        return;
      }
      if resultCode == ResultCanceled {
        settlements := settlements + [Settlement(authPromise.value, Reject(EAuthCancelled, "User canceled"))];
      } else if resultCode == ResultOk {
        settlements := settlements + [Settlement(authPromise.value, Resolve(true))];
      }
      authPromise := None;
    }

    /** `getManagedConfig(promise)`: resolves with the configuration, or
        with an empty map when there is none (the conversion of a null
        bundle fails and the failure is caught). */
    method GetManagedConfig(restrictions: Option<Bundle>) returns (result: map<string, Value>)
      ensures result == Payload(LoadResult(restrictions))
    {
      var managed := LoadResult(restrictions);
      if managed.None? {
        return map[];
      }
      return managed.value.entries;
    }
  }
}
