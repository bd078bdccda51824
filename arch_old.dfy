/** The `EmmModule` of `android/src/oldarch`: the bridge module that keeps
    the pending authentication promise and delegates everything else to
    `EmmModuleImpl`. */
module ArchOld {
  import opened Wrappers
  import opened Bundles
  import opened Promises
  import AndroidMain
  import AndroidImpl

  /** What one `authenticate` call leaves: the pending promise, the
      settlements made during the call, the promise whose prompt callbacks
      got registered, and whether the exception of a failing launch
      escaped. */
  datatype AuthStep = AuthStep(pending: Option<Promise>, settled: seq<Settlement>, prompt: Option<Promise>, threw: bool)

  /** Rejecting a promise that may be null (`promise?.reject(…)`). */
  function RejectionOf(promise: Option<Promise>, code: string, message: string): (r: seq<Settlement>)
    ensures promise.None? <==> r == []
    ensures promise.Some? ==> r == [Settlement(promise.value, Reject(code, message))]
  {
    if promise.Some? then [Settlement(promise.value, Reject(code, message))] else []
  }

  /** `authenticate(map, promise)` as written: the pending promise is set,
      the implementation starts the authentication, and the pending promise
      is cleared again as soon as that returns normally. */
  function AuthenticateAsWritten(pending: Option<Promise>, promise: Option<Promise>, hasActivity: bool, sdk: int,
                                 launch: AndroidMain.Launch): (r: AuthStep)
    ensures pending.Some? ==> r == AuthStep(pending, RejectionOf(promise, AndroidMain.EOneReqAtATime, "One auth request at a time"), None, false)
    ensures pending.None? && !hasActivity ==>
              r == AuthStep(None, RejectionOf(promise, AndroidMain.EActivityDoesNotExist, "Activity does not exist"), None, false)
    // a pending promise survives only a launch whose exception escaped
    ensures r.pending.Some? <==> pending.Some? || (hasActivity && launch.LaunchFailed? && promise.Some?)
    ensures r.threw <==> pending.None? && hasActivity && launch.LaunchFailed?
    ensures r.prompt.Some? ==> pending.None? && hasActivity && sdk >= AndroidImpl.SdkR && r.prompt == promise
    ensures |r.settled| <= 1 && forall s | s in r.settled :: Some(s.promise) == promise
  {
    if pending.Some? then AuthStep(pending, RejectionOf(promise, AndroidMain.EOneReqAtATime, "One auth request at a time"), None, false)
    else if !hasActivity then AuthStep(None, RejectionOf(promise, AndroidMain.EActivityDoesNotExist, "Activity does not exist"), None, false)
    else
      var st := AndroidImpl.StartAuthentication(promise, sdk, launch);
      AuthStep(if st.threw then promise else None, if st.settled.Some? then [st.settled.value] else [], st.prompt, st.threw)
  }

  /** Before Android R the credential is confirmed by an activity, whose
      result is the only thing that can settle the promise; but by the time
      the result arrives the pending promise is already cleared, so the
      promise is never settled. */
  lemma KeyguardResultSettlesNothing(p: Promise, sdk: int, requestCode: int, resultCode: int)
    requires sdk < AndroidImpl.SdkR
    ensures var r := AuthenticateAsWritten(None, Some(p), true, sdk, AndroidMain.Launched);
            && r.settled == [] && r.prompt.None? && r.pending.None?
            && AndroidImpl.ActivityResult(r.pending, requestCode, resultCode).None?
  {
  }

  /** The single-flight guard never fires after a call that returned: a
      second request is started while the first prompt is still shown. */
  lemma GuardNeverFiresAfterReturn(p: Promise, q: Promise, sdk: int)
    ensures var first := AuthenticateAsWritten(None, Some(p), true, sdk, AndroidMain.Launched);
            var second := AuthenticateAsWritten(first.pending, Some(q), true, sdk, AndroidMain.Launched);
            second.settled == [] && (sdk >= AndroidImpl.SdkR ==> second.prompt == Some(q))
  {
  }

  /** After a launch whose exception escaped, every request is rejected as
      one too many until some activity result clears the pending promise. */
  lemma ThrowBlocksLaterRequests(p: Promise, q: Promise, sdk: int, message: string, hasActivity: bool, launch: AndroidMain.Launch)
    ensures var first := AuthenticateAsWritten(None, Some(p), true, sdk, AndroidMain.LaunchFailed(message));
            var second := AuthenticateAsWritten(first.pending, Some(q), hasActivity, sdk, launch);
            && first.settled == [Settlement(p, Reject(AndroidImpl.Failed, message))]
            && second.settled == [Settlement(q, Reject(AndroidMain.EOneReqAtATime, "One auth request at a time"))]
            && second.pending == Some(p)
  {
  }

  /** `authenticate` as evidently intended: the pending promise is kept for
      the activity result exactly when the keyguard activity was started,
      and cleared otherwise, as the module of `android/src/main` does. */
  function AuthenticateCorrected(pending: Option<Promise>, promise: Option<Promise>, hasActivity: bool, sdk: int,
                                 launch: AndroidMain.Launch): (r: AuthStep)
    ensures r.pending.Some? <==>
              pending.Some? || (hasActivity && launch.Launched? && AndroidImpl.PathFor(sdk) == AndroidImpl.Keyguard && promise.Some?)
    ensures pending.None? && r.pending.Some? ==> r.pending == promise
    ensures r.settled == AuthenticateAsWritten(pending, promise, hasActivity, sdk, launch).settled
    ensures r.prompt == AuthenticateAsWritten(pending, promise, hasActivity, sdk, launch).prompt
  {
    var w := AuthenticateAsWritten(pending, promise, hasActivity, sdk, launch);
    if pending.None? && hasActivity then
      w.(pending := if launch.Launched? && AndroidImpl.PathFor(sdk) == AndroidImpl.Keyguard then promise else None)
    else w
  }

  /** With the correction every started request can be answered: it was
      settled during the call, its prompt's callbacks are registered, or it
      is pending, and then a confirming or cancelling activity result
      settles it. */
  lemma {:induction false} CorrectedRequestsAreAnswered(p: Promise, sdk: int, launch: AndroidMain.Launch, resultCode: int)
    ensures var r := AuthenticateCorrected(None, Some(p), true, sdk, launch);
            && (r.settled != [] || r.prompt == Some(p) || r.pending == Some(p))
            && (r.pending == Some(p) && (resultCode == AndroidMain.ResultOk || resultCode == AndroidMain.ResultCanceled) ==>
                  var s := AndroidImpl.ActivityResult(r.pending, AndroidImpl.Request, resultCode);
                  s.Some? && s.value.promise == p && (s.value.outcome == Resolve(true) <==> resultCode == AndroidMain.ResultOk))
  {
    var r := AuthenticateCorrected(None, Some(p), true, sdk, launch);
    var st := AndroidImpl.StartAuthentication(Some(p), sdk, launch);
    if launch.LaunchFailed? {
      assert st.settled.Some?;
    } else if sdk >= AndroidImpl.SdkR {
      assert st.prompt == Some(p);
    }
  }

  /** On the keyguard path the corrected module keeps the pending promise
      exactly as the module of `android/src/main` does. */
  lemma CorrectedPendingAsInMain(pending: Option<Promise>, p: Promise, hasActivity: bool, sdk: int, launch: AndroidMain.Launch)
    requires sdk < AndroidImpl.SdkR
    ensures AuthenticateCorrected(pending, Some(p), hasActivity, sdk, launch).pending ==
              AndroidMain.AuthenticateStep(pending, p, hasActivity, launch).0
  {
  }

  class EmmModule {
    const implementation: AndroidImpl.EmmModuleImpl
    var authPromise: Option<Promise>

    /** `init`: the configuration is loaded and stored. */
    constructor (bridge: Bridge, restrictions: Bundle)
      ensures fresh(implementation) && implementation.bridge == bridge && authPromise.None?
      ensures implementation.managedConfig == Some(restrictions)
      ensures !implementation.blurEnabled && !implementation.secureFlag
      ensures implementation.events == [] && implementation.prompts == {}
    {
      implementation := new AndroidImpl.EmmModuleImpl(bridge);
      authPromise := None;
      new;
      var _ := implementation.LoadManagedConfig(restrictions, true);
    }

    /** `authenticate(map, promise)`. */
    method Authenticate(p: Promise, hasActivity: bool, sdk: int, launch: AndroidMain.Launch) returns (threw: bool)
      modifies this, implementation, implementation.bridge
      ensures var r := AuthenticateAsWritten(old(authPromise), Some(p), hasActivity, sdk, launch);
              && authPromise == r.pending && threw == r.threw
              && implementation.bridge.settlements == old(implementation.bridge.settlements) + r.settled
              && implementation.prompts == old(implementation.prompts) + (if r.prompt.Some? then {r.prompt.value} else {})
      ensures implementation.blurEnabled == old(implementation.blurEnabled)
      ensures implementation.managedConfig == old(implementation.managedConfig)
      ensures implementation.secureFlag == old(implementation.secureFlag) && implementation.events == old(implementation.events)
    {
      threw := false;
      if authPromise.Some? {
        implementation.bridge.Settle(p, Reject(AndroidMain.EOneReqAtATime, "One auth request at a time"));
        return;
      }
      if !hasActivity {
        implementation.bridge.Settle(p, Reject(AndroidMain.EActivityDoesNotExist, "Activity does not exist"));
        return;
      }
      authPromise := Some(p);
      threw := implementation.Authenticate(authPromise, sdk, launch);
      if threw {
        // the exception leaves before the pending promise is cleared
        return;
      }
      authPromise := None;
    }

    /** The activity result listener: the implementation settles, and the
        pending promise is cleared whatever the request code. */
    method OnActivityResult(requestCode: int, resultCode: int)
      modifies this, implementation.bridge
      ensures authPromise.None?
      ensures var s := AndroidImpl.ActivityResult(old(authPromise), requestCode, resultCode);
              implementation.bridge.settlements == old(implementation.bridge.settlements) + (if s.Some? then [s.value] else [])
    {
      implementation.HandleActivityResult(authPromise, requestCode, resultCode);
      authPromise := None;
    }

    /** The restrictions receiver. */
    method OnReceive(restrictions: Bundle, hasActiveReactInstance: bool)
      modifies implementation
      ensures implementation.managedConfig == Some(restrictions)
      ensures implementation.events == old(implementation.events) + (if hasActiveReactInstance then [restrictions.entries] else [])
      ensures implementation.blurEnabled == old(implementation.blurEnabled)
      ensures implementation.secureFlag == old(implementation.secureFlag) && implementation.prompts == old(implementation.prompts)
    {
      implementation.HandleReceiveBroadcast(restrictions, hasActiveReactInstance);
    }

    /** `onHostResume()`. */
    method OnHostResume(restrictions: Bundle, hasWindow: bool, hasActiveReactInstance: bool)
      modifies implementation
      ensures implementation.managedConfig == old(implementation.managedConfig)
      ensures implementation.events == old(implementation.events) +
                (if AndroidImpl.ResumeEmits(restrictions, old(implementation.managedConfig)) && hasActiveReactInstance
                 then [restrictions.entries] else [])
      ensures implementation.secureFlag == if hasWindow then implementation.blurEnabled else old(implementation.secureFlag)
      ensures implementation.blurEnabled == old(implementation.blurEnabled) && implementation.prompts == old(implementation.prompts)
    {
      implementation.HandleHostResume(restrictions, hasWindow, hasActiveReactInstance);
    }

    /** `setBlurScreen(enabled)`. */
    method SetBlurScreen(enabled: bool, hasWindow: bool)
      modifies implementation
      ensures implementation.blurEnabled == enabled
      ensures implementation.secureFlag == if hasWindow then enabled else old(implementation.secureFlag)
      ensures implementation.managedConfig == old(implementation.managedConfig)
      ensures implementation.events == old(implementation.events) && implementation.prompts == old(implementation.prompts)
    {
      implementation.SetBlurScreen(enabled, hasWindow);
    }

    /** `getManagedConfig()`. */
    method GetManagedConfig(restrictions: Bundle) returns (result: map<string, Value>)
      ensures result == restrictions.entries
    {
      result := implementation.GetManagedConfig(restrictions);
    }

    /** `setAppGroupId`, `addListener` and `removeListeners` do nothing on
        Android. */
    method SetAppGroupId(identifier: string)
    {
    }
  }
}
