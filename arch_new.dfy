/** The `EmmModule` of `android/src/newarch` (the TurboModule): the same
    delegation as the old-architecture module, with nullable arguments, a
    check for missing options, and `setAppGroupId` unimplemented. */
module ArchNew {
  import opened Wrappers
  import opened Bundles
  import opened Promises
  import AndroidMain
  import AndroidImpl
  import ArchOld

  const NoOptionsMessage := "No options provided"

  /** `authenticate(options, promise)` as written; `hasOptions` is whether
      `options` is not null. */
  function AuthenticateAsWritten(pending: Option<Promise>, promise: Option<Promise>, hasActivity: bool, hasOptions: bool,
                                 sdk: int, launch: AndroidMain.Launch): (r: ArchOld.AuthStep)
    // missing options are checked after the pending promise and the activity
    ensures pending.None? && hasActivity && !hasOptions ==>
              r == ArchOld.AuthStep(None, ArchOld.RejectionOf(promise, AndroidImpl.Error, NoOptionsMessage), None, false)
    ensures pending.Some? || !hasActivity || hasOptions ==>
              r == ArchOld.AuthenticateAsWritten(pending, promise, hasActivity, sdk, launch)
  {
    if pending.None? && hasActivity && !hasOptions then
      ArchOld.AuthStep(None, ArchOld.RejectionOf(promise, AndroidImpl.Error, NoOptionsMessage), None, false)
    else ArchOld.AuthenticateAsWritten(pending, promise, hasActivity, sdk, launch)
  }

  /** The keyguard path loses its promise here as well. */
  lemma KeyguardResultSettlesNothing(p: Promise, sdk: int, requestCode: int, resultCode: int)
    requires sdk < AndroidImpl.SdkR
    ensures var r := AuthenticateAsWritten(None, Some(p), true, true, sdk, AndroidMain.Launched);
            && r.settled == [] && r.prompt.None? && r.pending.None?
            && AndroidImpl.ActivityResult(r.pending, requestCode, resultCode).None?
  {
    ArchOld.KeyguardResultSettlesNothing(p, sdk, requestCode, resultCode);
  }

  /** A null promise is never pending, so a request with one never blocks
      later requests, and nothing is ever settled for it. */
  lemma NullPromiseNeverPending(pending: Option<Promise>, hasActivity: bool, hasOptions: bool, sdk: int, launch: AndroidMain.Launch)
    requires pending.None?
    ensures var r := AuthenticateAsWritten(pending, None, hasActivity, hasOptions, sdk, launch);
            r.pending.None? && r.settled == [] && r.prompt.None?
  {
  }

  /** `authenticate` as evidently intended, keeping the pending promise for
      the keyguard activity's result. */
  function AuthenticateCorrected(pending: Option<Promise>, promise: Option<Promise>, hasActivity: bool, hasOptions: bool,
                                 sdk: int, launch: AndroidMain.Launch): (r: ArchOld.AuthStep)
    ensures pending.None? && hasActivity && !hasOptions ==> r == AuthenticateAsWritten(pending, promise, hasActivity, hasOptions, sdk, launch)
    ensures pending.Some? || !hasActivity || hasOptions ==>
              r == ArchOld.AuthenticateCorrected(pending, promise, hasActivity, sdk, launch)
  {
    if pending.None? && hasActivity && !hasOptions then
      ArchOld.AuthStep(None, ArchOld.RejectionOf(promise, AndroidImpl.Error, NoOptionsMessage), None, false)
    else ArchOld.AuthenticateCorrected(pending, promise, hasActivity, sdk, launch)
  }

  /** With the correction, a request with options on the keyguard path is
      pending, and a confirming or cancelling result settles it. */
  lemma {:induction false} CorrectedKeyguardSettles(p: Promise, sdk: int, resultCode: int)
    requires sdk < AndroidImpl.SdkR
    requires resultCode == AndroidMain.ResultOk || resultCode == AndroidMain.ResultCanceled
    ensures var r := AuthenticateCorrected(None, Some(p), true, true, sdk, AndroidMain.Launched);
            && r.pending == Some(p)
            && var s := AndroidImpl.ActivityResult(r.pending, AndroidImpl.Request, resultCode);
               s.Some? && s.value.promise == p && (s.value.outcome == Resolve(true) <==> resultCode == AndroidMain.ResultOk)
  {
    ArchOld.CorrectedRequestsAreAnswered(p, sdk, AndroidMain.Launched, resultCode);
  }

  class EmmModule {
    const implementation: AndroidImpl.EmmModuleImpl
    var authPromise: Option<Promise>

    /** `init`: the configuration is loaded and stored. */
    constructor (bridge: Bridge, restrictions: Bundle)
      ensures fresh(implementation) && implementation.bridge == bridge && authPromise.None?
      ensures implementation.managedConfig == Some(restrictions)
      ensures !implementation.blurEnabled && !implementation.secureFlag
      ensures implementation.events == [] && implementation.prompts == {}
    {
      implementation := new AndroidImpl.EmmModuleImpl(bridge);
      authPromise := None;
      new;
      var _ := implementation.LoadManagedConfig(restrictions, true);
    }

    /** `authenticate(options, promise)`. */
    method Authenticate(promise: Option<Promise>, hasActivity: bool, hasOptions: bool, sdk: int, launch: AndroidMain.Launch)
      returns (threw: bool)
      modifies this, implementation, implementation.bridge
      ensures var r := AuthenticateAsWritten(old(authPromise), promise, hasActivity, hasOptions, sdk, launch);
              && authPromise == r.pending && threw == r.threw
              && implementation.bridge.settlements == old(implementation.bridge.settlements) + r.settled
              && implementation.prompts == old(implementation.prompts) + (if r.prompt.Some? then {r.prompt.value} else {})
      ensures implementation.blurEnabled == old(implementation.blurEnabled)
      ensures implementation.managedConfig == old(implementation.managedConfig)
      ensures implementation.secureFlag == old(implementation.secureFlag) && implementation.events == old(implementation.events)
    {
      threw := false;
      if authPromise.Some? {
        if promise.Some? {
          implementation.bridge.Settle(promise.value, Reject(AndroidMain.EOneReqAtATime, "One auth request at a time"));
        }
        return;
      }
      if !hasActivity {
        if promise.Some? {
          implementation.bridge.Settle(promise.value, Reject(AndroidMain.EActivityDoesNotExist, "Activity does not exist"));
        }
        return;
      }
      if !hasOptions {
        if promise.Some? {
          implementation.bridge.Settle(promise.value, Reject(AndroidImpl.Error, NoOptionsMessage));
        }
        return;
      }
      authPromise := promise;
      threw := implementation.Authenticate(authPromise, sdk, launch);
      if threw {
        // the exception leaves before the pending promise is cleared
        return;
      }
      authPromise := None;
    }

    /** The activity result listener, as in the old architecture. */
    method OnActivityResult(requestCode: int, resultCode: int)
      modifies this, implementation.bridge
      ensures authPromise.None?
      ensures var s := AndroidImpl.ActivityResult(old(authPromise), requestCode, resultCode);
              implementation.bridge.settlements == old(implementation.bridge.settlements) + (if s.Some? then [s.value] else [])
    {
      implementation.HandleActivityResult(authPromise, requestCode, resultCode);
      authPromise := None;
    }

    /** The restrictions receiver. */
    method OnReceive(restrictions: Bundle, hasActiveReactInstance: bool)
      modifies implementation
      ensures implementation.managedConfig == Some(restrictions)
      ensures implementation.events == old(implementation.events) + (if hasActiveReactInstance then [restrictions.entries] else [])
      ensures implementation.blurEnabled == old(implementation.blurEnabled)
      ensures implementation.secureFlag == old(implementation.secureFlag) && implementation.prompts == old(implementation.prompts)
    {
      implementation.HandleReceiveBroadcast(restrictions, hasActiveReactInstance);
    }

    /** `onHostResume()`. */
    method OnHostResume(restrictions: Bundle, hasWindow: bool, hasActiveReactInstance: bool)
      modifies implementation
      ensures implementation.managedConfig == old(implementation.managedConfig)
      ensures implementation.events == old(implementation.events) +
                (if AndroidImpl.ResumeEmits(restrictions, old(implementation.managedConfig)) && hasActiveReactInstance
                 then [restrictions.entries] else [])
      ensures implementation.secureFlag == if hasWindow then implementation.blurEnabled else old(implementation.secureFlag)
      ensures implementation.blurEnabled == old(implementation.blurEnabled) && implementation.prompts == old(implementation.prompts)
    {
      implementation.HandleHostResume(restrictions, hasWindow, hasActiveReactInstance);
    }

    /** `setBlurScreen(enabled)`. */
    method SetBlurScreen(enabled: bool, hasWindow: bool)
      modifies implementation
      ensures implementation.blurEnabled == enabled
      ensures implementation.secureFlag == if hasWindow then enabled else old(implementation.secureFlag)
      ensures implementation.managedConfig == old(implementation.managedConfig)
      ensures implementation.events == old(implementation.events) && implementation.prompts == old(implementation.prompts)
    {
      implementation.SetBlurScreen(enabled, hasWindow);
    }

    /** `getManagedConfig()`. */
    method GetManagedConfig(restrictions: Bundle) returns (result: map<string, Value>)
      ensures result == restrictions.entries
    {
      result := implementation.GetManagedConfig(restrictions);
    }

    /** `setAppGroupId(identifier)` is not implemented: it always throws
        and changes nothing. */
    method SetAppGroupId(identifier: Option<string>) returns (threw: bool)
      ensures threw
    {
      threw := true;
    }
  }
}
