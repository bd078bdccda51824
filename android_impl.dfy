/** `EmmModuleImpl`, the Android implementation both architecture modules
    delegate to: authentication through `BiometricPrompt` from Android R on
    and through the keyguard's confirm-credential activity before it, the
    stateless activity-result handler, the raw managed configuration with
    change detection on resume, and the `FLAG_SECURE` switch. The SDK
    level, the restrictions the platform reports, the current activity and
    a failing launch are inputs; the prompt's callbacks are events. */
module AndroidImpl {
  import opened Wrappers
  import opened Strings
  import opened Bundles
  import opened Promises
  import AndroidMain

  const Request := 18864
  const Failed := "AuthenticationFailed"
  const Cancelled := "UserCancel"
  const Error := "AuthenticationError"

  /** `Build.VERSION_CODES.R`. */
  const SdkR := 30
  /** `Authenticators.BIOMETRIC_STRONG` and `Authenticators.DEVICE_CREDENTIAL`:
      the prompt accepts either. */
  const BiometricStrong: bv32 := 0x000F
  const DeviceCredential: bv32 := 0x8000
  const AllowedAuthenticators: bv32 := BiometricStrong | DeviceCredential

  /** How the credential is asked for. */
  datatype AuthPath = Prompt | Keyguard

  function PathFor(sdk: int): (r: AuthPath)
    ensures r == Prompt <==> sdk >= SdkR
  {
    if sdk >= SdkR then Prompt else Keyguard
  }

  /** The authenticators the prompt is built with: none below Android R,
      where no prompt is built; from R on a strong biometric or the device
      credential, and nothing else. */
  function PromptAuthenticators(sdk: int): (a: Option<bv32>)
    ensures a.Some? <==> PathFor(sdk) == Prompt
    ensures a.Some? ==> && a.value & BiometricStrong == BiometricStrong
                        && a.value & DeviceCredential == DeviceCredential
                        && a.value & !(BiometricStrong | DeviceCredential) == 0
  {
    if sdk >= SdkR then Some(AllowedAuthenticators) else None
  }

  /** What the prompt reports to its callbacks: success, an error, one
      failed attempt, or the cancellation signal. */
  datatype PromptEvent = Succeeded | AuthError(errorCode: int, errString: string) | AttemptFailed | CancelSignal

  /** The text of an `onAuthenticationError` rejection. */
  function ErrorText(errorCode: int, errString: string): string {
    "error code = [" + IntToString(errorCode) + "], message = [" + errString + "]"
  }

  /** How each prompt callback settles the promise. */
  function PromptOutcome(e: PromptEvent): (o: Outcome)
    ensures o.Resolve? <==> e.Succeeded?
    ensures o.Resolve? ==> o.value
    ensures e.AuthError? ==> o == Reject(Error, ErrorText(e.errorCode, e.errString))
    ensures e.AttemptFailed? ==> o == Reject(Failed, "Biometric authentication failed")
    ensures e.CancelSignal? ==> o == Reject(Cancelled, "Biometric prompt cancelled")
  {
    match e
    case Succeeded => Resolve(true)
    case AuthError(code, text) => Reject(Error, ErrorText(code, text))
    case AttemptFailed => Reject(Failed, "Biometric authentication failed")
    case CancelSignal => Reject(Cancelled, "Biometric prompt cancelled")
  }

  /** One failed attempt settles the promise as failed: a success the
      prompt reports afterwards is ignored. */
  lemma {:induction false} FailedAttemptIsFinal(log: seq<Settlement>, p: Promise, later: PromptEvent)
    requires OutcomeOf(log, p).None?
    ensures OutcomeOf(log + [Settlement(p, PromptOutcome(AttemptFailed))] + [Settlement(p, PromptOutcome(later))], p)
              == Some(Reject(Failed, "Biometric authentication failed"))
  {
    OutcomeOfAppend(log, Settlement(p, PromptOutcome(AttemptFailed)), p);
    OutcomeOfAppend(log + [Settlement(p, PromptOutcome(AttemptFailed))], Settlement(p, PromptOutcome(later)), p);
  }

  /** `handleActivityResult(authPromise, …)`: the settlement it makes. */
  function ActivityResult(authPromise: Option<Promise>, requestCode: int, resultCode: int): (r: Option<Settlement>)
    ensures r.Some? <==> requestCode == Request && authPromise.Some? &&
                         (resultCode == AndroidMain.ResultCanceled || resultCode == AndroidMain.ResultOk)
    ensures r.Some? ==> r.value.promise == authPromise.value
    ensures r.Some? ==> (r.value.outcome == Resolve(true) <==> resultCode == AndroidMain.ResultOk)
    ensures r.Some? && resultCode == AndroidMain.ResultCanceled ==> r.value.outcome == Reject(Cancelled, "User canceled")
  {
    if requestCode != Request || authPromise.None? then None
    else if resultCode == AndroidMain.ResultCanceled then Some(Settlement(authPromise.value, Reject(Cancelled, "User canceled")))
    else if resultCode == AndroidMain.ResultOk then Some(Settlement(authPromise.value, Resolve(true)))
    else None
  }

  /** The handler settles exactly as the listener of `android/src/main`
      does; only clearing the pending promise moved to its callers. */
  lemma ActivityResultAsInMain(authPromise: Option<Promise>, requestCode: int, resultCode: int)
    ensures ActivityResult(authPromise, requestCode, resultCode) == AndroidMain.ActivityResultStep(authPromise, requestCode, resultCode).1
  {
  }

  /** What `authenticate(activity, map, promise)` starts. */
  datatype Started = Started(path: AuthPath, prompt: Option<Promise>, settled: Option<Settlement>, threw: bool)

  function StartAuthentication(promise: Option<Promise>, sdk: int, launch: AndroidMain.Launch): (r: Started)
    ensures r.path == PathFor(sdk)
    // a failing launch rejects the promise as failed and the exception goes on
    ensures r.threw <==> launch.LaunchFailed?
    ensures r.settled.Some? <==> r.threw && promise.Some?
    ensures r.settled.Some? ==> r.settled.value == Settlement(promise.value, Reject(Failed, launch.message))
    // only a shown prompt has callbacks that can settle the promise later
    ensures r.prompt.Some? <==> r.path == Prompt && !r.threw && promise.Some?
    ensures r.prompt.Some? ==> r.prompt == promise
  {
    var path := PathFor(sdk);
    match launch
    case Launched => Started(path, if path == Prompt then promise else None, None, false)
    case LaunchFailed(message) =>
      Started(path, None, if promise.Some? then Some(Settlement(promise.value, Reject(Failed, message))) else None, true)
  }

  /** Whether `handleHostResume` emits: the raw restrictions compared with
      the stored raw bundle. */
  predicate ResumeEmits(restrictions: Bundle, stored: Option<Bundle>) {
    !BundlesEqual(Some(restrictions), stored)
  }

  /** Now that the raw bundle is compared, empty restrictions no longer
      emit on every resume. */
  lemma EmptyRestrictionsQuiet(now: Bundle, stored: Bundle)
    requires |now.entries| == 0 && |stored.entries| == 0
    ensures !ResumeEmits(now, Some(stored))
    ensures AndroidMain.ResumeEmits(Some(now), Some(stored))
  {
    assert now.entries.Keys + stored.entries.Keys == {} by {
      assert now.entries == map[] && stored.entries == map[];
    }
  }

  /** For restrictions that are not empty both comparisons agree. */
  lemma NonEmptyResumeAsInMain(now: Bundle, stored: Option<Bundle>)
    requires |now.entries| > 0
    ensures ResumeEmits(now, stored) == AndroidMain.ResumeEmits(Some(now), stored)
  {
  }

  /** `getManagedConfig()` here resolves the same map as in
      `android/src/main`: empty restrictions give an empty map either way. */
  lemma GetManagedConfigAsInMain(now: Bundle)
    ensures AndroidMain.Payload(Some(now)) == AndroidMain.Payload(AndroidMain.LoadResult(Some(now)))
  {
    if |now.entries| == 0 {
      assert now.entries == map[];
    }
  }

  class EmmModuleImpl {
    /** Where promises are settled. */
    const bridge: Bridge
    var blurEnabled: bool
    var managedConfig: Option<Bundle>
    /** `FLAG_SECURE` on the current activity's window. */
    var secureFlag: bool
    /** Payloads of the `managedConfigChanged` events, oldest first. */
    var events: seq<map<string, Value>>
    /** Promises whose prompt callbacks are registered. */
    var prompts: set<Promise>

    constructor (bridge: Bridge)
      ensures this.bridge == bridge
      ensures !blurEnabled && managedConfig.None? && !secureFlag && events == [] && prompts == {}
    {
      this.bridge := bridge;
      blurEnabled := false;
      managedConfig := None;
      secureFlag := false;
      events := [];
      prompts := {};
    }

    /** `loadManagedConfig(global)`: it hands back the raw bundle, even an
        empty one. */
    method LoadManagedConfig(restrictions: Bundle, global: bool) returns (r: Bundle)
      modifies this
      ensures r == restrictions
      ensures managedConfig == if global then Some(restrictions) else old(managedConfig)
      ensures blurEnabled == old(blurEnabled) && secureFlag == old(secureFlag)
      ensures events == old(events) && prompts == old(prompts)
    {
      if global {
        managedConfig := Some(restrictions);
      }
      r := restrictions;
    }

    /** `sendConfigChanged(config)`: only with an active React instance. */
    method SendConfigChanged(config: Option<Bundle>, hasActiveReactInstance: bool)
      modifies this
      ensures events == old(events) + (if hasActiveReactInstance then [AndroidMain.Payload(config)] else [])
      ensures blurEnabled == old(blurEnabled) && managedConfig == old(managedConfig)
      ensures secureFlag == old(secureFlag) && prompts == old(prompts)
    {
      if hasActiveReactInstance {
        var result := map[];
        if config.Some? {
          result := config.value.entries;
        }
        events := events + [result];
      }
    }

    /** `handleReceiveBroadcast(intent)`. */
    method HandleReceiveBroadcast(restrictions: Bundle, hasActiveReactInstance: bool)
      modifies this
      ensures managedConfig == Some(restrictions)
      ensures events == old(events) + (if hasActiveReactInstance then [restrictions.entries] else [])
      ensures blurEnabled == old(blurEnabled) && secureFlag == old(secureFlag) && prompts == old(prompts)
    {
      var managed := LoadManagedConfig(restrictions, true);
      SendConfigChanged(Some(managed), hasActiveReactInstance);
    }

    /** `handleHostResume(activity, receiver)`. */
    method HandleHostResume(restrictions: Bundle, hasWindow: bool, hasActiveReactInstance: bool)
      modifies this
      ensures managedConfig == old(managedConfig)
      ensures events == old(events) +
                (if ResumeEmits(restrictions, old(managedConfig)) && hasActiveReactInstance then [restrictions.entries] else [])
      ensures secureFlag == if hasWindow then blurEnabled else old(secureFlag)
      ensures blurEnabled == old(blurEnabled) && prompts == old(prompts)
    {
      var managed := LoadManagedConfig(restrictions, false);
      var equal := EqualBundles(Some(managed), managedConfig);
      if !equal {
        SendConfigChanged(Some(managed), hasActiveReactInstance);
      }
      HandleBlurScreen(hasWindow);
    }

    /** `handleBlurScreen(activity)`. */
    method HandleBlurScreen(hasWindow: bool)
      modifies this
      ensures secureFlag == if hasWindow then blurEnabled else old(secureFlag)
      ensures blurEnabled == old(blurEnabled) && managedConfig == old(managedConfig)
      ensures events == old(events) && prompts == old(prompts)
    {
      if hasWindow {
        secureFlag := blurEnabled;
      }
    }

    /** `setBlurScreen(activity, enabled)`. */
    method SetBlurScreen(enabled: bool, hasWindow: bool)
      modifies this
      ensures blurEnabled == enabled
      ensures secureFlag == if hasWindow then enabled else old(secureFlag)
      ensures managedConfig == old(managedConfig) && events == old(events) && prompts == old(prompts)
    {
      blurEnabled := enabled;
      HandleBlurScreen(hasWindow);
    }

    /** `handleActivityResult(authPromise, …)`. */
    method HandleActivityResult(authPromise: Option<Promise>, requestCode: int, resultCode: int)
      modifies bridge
      ensures var s := ActivityResult(authPromise, requestCode, resultCode);
              bridge.settlements == old(bridge.settlements) + (if s.Some? then [s.value] else [])
    {
      if requestCode != Request || authPromise.None? {
        return;
      }
      if resultCode == AndroidMain.ResultCanceled {
        bridge.Settle(authPromise.value, Reject(Cancelled, "User canceled"));
      } else if resultCode == AndroidMain.ResultOk {
        bridge.Settle(authPromise.value, Resolve(true));
      }
    }

    /** `authenticate(activity, map, promise)`: `threw` is whether the
        exception of a failing launch goes on to the caller. */
    method Authenticate(promise: Option<Promise>, sdk: int, launch: AndroidMain.Launch) returns (threw: bool)
      modifies this, bridge
      ensures var st := StartAuthentication(promise, sdk, launch);
              && threw == st.threw
              && bridge.settlements == old(bridge.settlements) + (if st.settled.Some? then [st.settled.value] else [])
              && prompts == old(prompts) + (if st.prompt.Some? then {st.prompt.value} else {})
      ensures blurEnabled == old(blurEnabled) && managedConfig == old(managedConfig)
      ensures secureFlag == old(secureFlag) && events == old(events)
    {
      if launch.LaunchFailed? {
        if promise.Some? {
          bridge.Settle(promise.value, Reject(Failed, launch.message));
        }
        return true;
      }
      if sdk >= SdkR && promise.Some? {
        prompts := prompts + {promise.value};
      }
      return false;
    }

    /** A callback of the prompt shown for `p`. */
    method OnPromptEvent(p: Promise, e: PromptEvent)
      requires p in prompts
      modifies bridge
      ensures bridge.settlements == old(bridge.settlements) + [Settlement(p, PromptOutcome(e))]
    {
      match e
      case Succeeded => bridge.Settle(p, Resolve(true));
      case AuthError(code, text) => bridge.Settle(p, Reject(Error, ErrorText(code, text)));
      case AttemptFailed => bridge.Settle(p, Reject(Failed, "Biometric authentication failed"));
      case CancelSignal => bridge.Settle(p, Reject(Cancelled, "Biometric prompt cancelled"));
    }

    /** `getManagedConfig()`. */
    method GetManagedConfig(restrictions: Bundle) returns (result: map<string, Value>)
      ensures result == AndroidMain.Payload(Some(restrictions))
    {
      return restrictions.entries;
    }
  }
}
