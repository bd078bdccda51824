/** The iOS module object (`EmmWrapper`): authentication with the blur flags
    around it, the device-security classification, the blur switch, the
    notification observers and the managed configuration. */
module EmmIOS {
  import opened Wrappers
  import opened CaptureManager
  import opened Policy
  import opened ManagedConfigIOS

  /** The options of `authenticate`; the first three are force-cast, so they
      are always present. */
  datatype AuthOptions = AuthOptions(reason: string, fallback: bool, supressEnterPassword: bool,
                                     blurOnAuthenticate: Option<bool>)

  /** How a promise was settled. */
  datatype Settlement = Resolved(value: bool) | Rejected(code: string, message: string, error: int)

  /** The flags and cover once `authenticate` has started. */
  function BeginAuthentication(s: BlurState, blurOnAuthenticate: Option<bool>, hasKeyWindow: bool): (r: BlurState)
    ensures r.isAuthenticating && r.blurOnAuthenticate == blurOnAuthenticate.GetOr(false)
    ensures r.preventScreenCapture == s.preventScreenCapture
    // during authentication only the option asks for a cover
    ensures r.blurView.Some? <==> s.blurView.Some? || (hasKeyWindow && blurOnAuthenticate == Some(true))
  {
    AfterApply(s.(isAuthenticating := true, blurOnAuthenticate := blurOnAuthenticate.GetOr(false)), DefaultRadius, hasKeyWindow)
  }

  /** The completion handler's effect on the flags: a success under
      `blurOnAuthenticate` ends authentication and force-removes the cover at
      once; every other outcome leaves everything as it is and asks for
      `isAuthenticating` to be cleared later (`clearLater`). */
  function CompleteAuthentication(s: BlurState, c: Completion, hasKeyWindow: bool): (r: (BlurState, bool))
    ensures var (t, clearLater) := r;
            && (clearLater <==> !(c.success && s.blurOnAuthenticate))
            && (clearLater ==> t == s)
            && (!clearLater ==> !t.isAuthenticating && (hasKeyWindow ==> t.blurView.None?))
            && t.blurOnAuthenticate == s.blurOnAuthenticate && t.preventScreenCapture == s.preventScreenCapture
  {
    if c.success && s.blurOnAuthenticate then
      (AfterRemove(s.(isAuthenticating := false), true, hasKeyWindow), false)
    else
      (s, true)
  }

  /** The settlement of one completion: a rejection with the message of the
      error code when there is an error, otherwise `true`. */
  function Settle(c: Completion): (st: Settlement)
    ensures st.Rejected? <==> c.error.Some?
    ensures st.Rejected? ==> st == Rejected("error", ErrorMessageForFails(c.error.value), c.error.value)
    ensures st.Resolved? ==> st.value
  {
    if c.error.Some? then Rejected("error", ErrorMessageForFails(c.error.value), c.error.value)
    else Resolved(true)
  }

  /** When the capability check fails early, authentication settles twice:
      first with the capability error, then with the evaluation reply. */
  lemma EarlyFailureSettlesTwice(fallback: bool, ev: Evaluator)
    requires EarlyFailure(DeviceOwnerAuthenticationWithBiometrics, fallback, ev)
    ensures var cs := Completions(DeviceOwnerAuthenticationWithBiometrics, fallback, ev);
            var code := ev.errorCode(DeviceOwnerAuthenticationWithBiometrics);
            && |cs| == 2
            && Settle(cs[0]) == Rejected("error", ErrorMessageForFails(code), code)
            && Settle(cs[1]) == Settle(ReplyCompletion(ev.reply(DeviceOwnerAuthenticationWithBiometrics)))
  {
    HandlerCalls(DeviceOwnerAuthenticationWithBiometrics, fallback, ev);
  }

  /** A failed authentication under `blurOnAuthenticate` keeps its cover
      through an unforced remove, until `isAuthenticating` is cleared later;
      then becoming active removes it. */
  lemma FailureKeepsCoverUntilCleared(s: BlurState, c: Completion)
    requires s.blurView.None? && !c.success
    ensures var started := BeginAuthentication(s, Some(true), true);
            var (t, clearLater) := CompleteAuthentication(started, c, true);
            && started.blurView.Some? && clearLater
            && AfterRemove(t, false, true).blurView.Some?
            && AfterRemove(t.(isAuthenticating := false), false, true).blurView.None?
  {
  }

  /** A successful authentication under `blurOnAuthenticate` with a key
      window ends with no cover and authentication over. */
  lemma SuccessRemovesCover(s: BlurState, hasKeyWindow: bool)
    ensures var started := BeginAuthentication(s, Some(true), hasKeyWindow);
            var (t, clearLater) := CompleteAuthentication(started, Completion(true, None), true);
            && !clearLater && t.blurView.None? && !t.isAuthenticating
  {
  }

  datatype BiometryType = NoBiometry | TouchID | FaceID

  /** The answer of `deviceSecureWith`. */
  datatype SecureWith = SecureWith(face: bool, fingerprint: bool, passcode: bool)

  /** `deviceSecureWith`: `hasBiometrics` and `hasAuthentication` are whether
      the biometrics and the device-owner policies can be evaluated. */
  function DeviceSecureWith(hasBiometrics: bool, hasAuthentication: bool, biometryType: BiometryType, modernOS: bool): (r: SecureWith)
    ensures !(r.face && r.fingerprint) && !(r.face && r.passcode) && !(r.fingerprint && r.passcode)
    ensures r.passcode <==> !hasBiometrics && hasAuthentication
    ensures r.face <==> modernOS && hasBiometrics && biometryType == FaceID
    ensures r.fingerprint <==> hasBiometrics && (!modernOS || biometryType == TouchID)
  {
    var none := SecureWith(false, false, false);
    if modernOS then
      if hasBiometrics then
        match biometryType
        case FaceID => none.(face := true)
        case TouchID => none.(fingerprint := true)
        case NoBiometry => none
      else if hasAuthentication then none.(passcode := true)
      else none
    else if hasBiometrics then none.(fingerprint := true)
    else if hasAuthentication then none.(passcode := true)
    else none
  }

  /** The notifications the module observes. */
  datatype AppEvent = UserDefaultsDidChange | WillResignActive | DidBecomeActive

  class EmmWrapper {
    const manager: ScreenCaptureManager
    var hasListeners: bool
    var hasDelegate: bool
    var appGroupId: Option<string>
    var sharedDefaults: SharedDefaults
    /** The payloads sent to the delegate, oldest first. */
    var events: seq<Dict>
    /** Whether the module observes the defaults. */
    var observesDefaults: bool
    /** Whether the manager observes the activation notifications. */
    var managerObservesActivation: bool

    constructor (manager: ScreenCaptureManager)
      ensures this.manager == manager
      ensures !hasListeners && !hasDelegate && appGroupId.None? && sharedDefaults.NoSharedDefaults?
      ensures events == [] && !observesDefaults && !managerObservesActivation
    {
      this.manager := manager;
      hasListeners := false;
      hasDelegate := false;
      appGroupId := None;
      sharedDefaults := NoSharedDefaults;
      events := [];
      observesDefaults := false;
      managerObservesActivation := false;
    }

    /** `captureEvents()`: the module observes the defaults, the manager the
        activation notifications. */
    method CaptureEvents()
      modifies this
      ensures observesDefaults && managerObservesActivation
      ensures hasListeners == old(hasListeners) && hasDelegate == old(hasDelegate)
      ensures appGroupId == old(appGroupId) && sharedDefaults == old(sharedDefaults) && events == old(events)
    {
      observesDefaults := true;
      managerObservesActivation := true;
    }

    /** `invalidate()`: a forced remove, and the module stops observing; the
        manager's own observers stay registered. */
    method Invalidate(hasKeyWindow: bool)
      modifies this, manager
      ensures manager.State() == AfterRemove(old(manager.State()), true, hasKeyWindow)
      ensures !observesDefaults && managerObservesActivation == old(managerObservesActivation)
      ensures hasListeners == old(hasListeners) && hasDelegate == old(hasDelegate)
      ensures appGroupId == old(appGroupId) && sharedDefaults == old(sharedDefaults) && events == old(events)
    {
      manager.RemoveBlurEffect(true, hasKeyWindow);
      observesDefaults := false;
    }

    /** A notification arrives: resigning active applies the cover, becoming
        active removes it unforced, and a defaults change syncs the managed
        configuration (`config` is the standard defaults' entry); nothing
        happens for a notification nobody observes. */
    method Deliver(e: AppEvent, config: Option<Dict>, hasKeyWindow: bool)
      modifies this, manager
      ensures e == WillResignActive && managerObservesActivation ==>
                manager.State() == AfterApply(old(manager.State()), DefaultRadius, hasKeyWindow)
      ensures e == DidBecomeActive && managerObservesActivation ==>
                manager.State() == AfterRemove(old(manager.State()), false, hasKeyWindow)
      ensures e == UserDefaultsDidChange || !managerObservesActivation ==> manager.State() == old(manager.State())
      ensures var r := ManagedConfigChanged(config, old(appGroupId), old(sharedDefaults), old(hasListeners), old(hasDelegate));
              if e == UserDefaultsDidChange && observesDefaults then
                && sharedDefaults == r.shared
                && events == old(events) + (if r.event.Some? then [r.event.value] else [])
              else sharedDefaults == old(sharedDefaults) && events == old(events)
      ensures observesDefaults == old(observesDefaults) && managerObservesActivation == old(managerObservesActivation)
      ensures hasListeners == old(hasListeners) && hasDelegate == old(hasDelegate) && appGroupId == old(appGroupId)
    {
      match e
      case WillResignActive =>
        if managerObservesActivation {
          manager.ApplyBlurEffect(DefaultRadius, hasKeyWindow);
        }
      case DidBecomeActive =>
        if managerObservesActivation {
          manager.RemoveBlurEffect(false, hasKeyWindow);
        }
      case UserDefaultsDidChange =>
        if observesDefaults {
          ManagedConfigChangedStep(config);
        }
    }

    /** `managedConfigChaged(notification:)`. */
    method ManagedConfigChangedStep(config: Option<Dict>)
      modifies this
      ensures var r := ManagedConfigChanged(config, old(appGroupId), old(sharedDefaults), old(hasListeners), old(hasDelegate));
              && sharedDefaults == r.shared
              && events == old(events) + (if r.event.Some? then [r.event.value] else [])
      ensures observesDefaults == old(observesDefaults) && managerObservesActivation == old(managerObservesActivation)
      ensures hasListeners == old(hasListeners) && hasDelegate == old(hasDelegate) && appGroupId == old(appGroupId)
    {
      if config.None? {
        if sharedDefaults.SharedDefaults? && sharedDefaults.entry.Some? {
          sharedDefaults := SharedDefaults(None);
        }
        return;
      }
      var initial := if sharedDefaults.SharedDefaults? then sharedDefaults.entry.GetOr(map[]) else map[];
      var equal := initial == config.value;
      if appGroupId.Some? && !equal {
        if sharedDefaults.SharedDefaults? {
          sharedDefaults := SharedDefaults(config);
        }
      }
      if hasListeners && hasDelegate {
        events := events + [config.value];
      }
    }

    /** `setAppGroupId(identifier:)`: the shared defaults of that suite, if
        the platform opens it (`suite`, with its stored entry), replace the
        previous ones. */
    method SetAppGroupId(identifier: string, suite: SharedDefaults)
      modifies this
      ensures appGroupId == Some(identifier) && sharedDefaults == suite
      ensures hasListeners == old(hasListeners) && hasDelegate == old(hasDelegate) && events == old(events)
      ensures observesDefaults == old(observesDefaults) && managerObservesActivation == old(managerObservesActivation)
    {
      appGroupId := Some(identifier);
      sharedDefaults := suite;
    }

    /** `setBlurScreen(enabled:)`: only the prevent flag changes; no cover is
        added or removed. */
    method SetBlurScreen(enabled: bool)
      modifies manager
      ensures manager.State() == old(manager.State()).(preventScreenCapture := enabled)
    {
      manager.preventScreenCapture := enabled;
    }

    /** `authenticate(options:)` up to the evaluation: the flags are set, a
        cover is applied, and the biometrics policy is tried; `calls` are the
        completion-handler calls that follow, to be passed one by one to
        `OnCompletion`. */
    method Authenticate(options: AuthOptions, ev: Evaluator, hasKeyWindow: bool) returns (calls: seq<Completion>)
      modifies manager
      ensures manager.State() == BeginAuthentication(old(manager.State()), options.blurOnAuthenticate, hasKeyWindow)
      ensures calls == Completions(DeviceOwnerAuthenticationWithBiometrics, options.fallback, ev)
    {
      manager.isAuthenticating := true;
      manager.blurOnAuthenticate := options.blurOnAuthenticate.GetOr(false);
      manager.ApplyBlurEffect(DefaultRadius, hasKeyWindow);
      var contexts;
      calls, contexts := AuthenticateWithPolicy(DeviceOwnerAuthenticationWithBiometrics, options.reason,
                                                options.fallback, options.supressEnterPassword, ev);
    }

    /** The completion handler of `authenticate`: its flag change, whether
        `isAuthenticating` is to be cleared later, and the settlement. */
    method OnCompletion(c: Completion, hasKeyWindow: bool) returns (settlement: Settlement, clearLater: bool)
      modifies manager
      ensures (manager.State(), clearLater) == CompleteAuthentication(old(manager.State()), c, hasKeyWindow)
      ensures settlement == Settle(c)
    {
      if c.success && manager.blurOnAuthenticate {
        manager.isAuthenticating := false;
        manager.RemoveBlurEffect(true, hasKeyWindow);
        clearLater := false;
      } else {
        clearLater := true;
      }
      if c.error.Some? {
        settlement := Rejected("error", ErrorMessageForFails(c.error.value), c.error.value);
        return;
      }
      settlement := Resolved(true);
    }

    /** The delayed block that ends authentication. */
    method ClearAuthenticating()
      modifies manager
      ensures manager.State() == old(manager.State()).(isAuthenticating := false)
    {
      manager.isAuthenticating := false;
    }
  }
}
