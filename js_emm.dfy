/** The JavaScript entry point `src/emm.ts`: options normalised before they
    reach the native `authenticate`, a resolved or rejected native promise
    turned into a boolean, the managed configuration cached between calls
    and replaced by every change event, the device-security summary, and
    calls that only one platform receives. The native replies are
    inputs. */
module JsEmm {
  import opened Wrappers
  import EmmIOS
  import CaptureManager
  import AndroidMain

  datatype Platform = IOS | Android

  /** A value of the managed configuration. */
  datatype JsValue = Str(s: string) | Num(n: int) | Flag(b: bool)
  type Config = map<string, JsValue>

  /** `AuthenticateConfig`, every field optional. */
  datatype AuthenticateConfig = AuthenticateConfig(reason: Option<string>, description: Option<string>, fallback: Option<bool>,
                                                   supressEnterPassword: Option<bool>, blurOnAuthenticate: Option<bool>)

  /** The options object handed to the native `authenticate`. */
  datatype NativeOptions = NativeOptions(reason: string, description: string, fallback: bool, supressEnterPassword: bool)

  /** JavaScript's `a || b` when `a` is an optional string: an absent or
      empty string is falsy. */
  function OrString(a: Option<string>, b: string): string {
    if a.Some? && a.value != "" then a.value else b
  }

  /** JavaScript's `a || b` when `a` is an optional boolean. */
  function OrBool(a: Option<bool>, b: bool): bool {
    if a == Some(true) then true else b
  }

  /** The options built in `authenticate`, as written: `fallback || true`
      is true whatever the caller passed, and `blurOnAuthenticate` is not
      passed on. */
  function NormalizeOptions(opts: AuthenticateConfig): (o: NativeOptions)
    ensures o.reason == opts.reason.GetOr("") && o.description == opts.description.GetOr("")
    ensures o.fallback
    ensures o.supressEnterPassword == opts.supressEnterPassword.GetOr(false)
  {
    NativeOptions(OrString(opts.reason, ""), OrString(opts.description, ""), OrBool(opts.fallback, true),
                  OrBool(opts.supressEnterPassword, false))
  }

  /** A caller that turns the fallback off gets it anyway. */
  lemma FallbackFalseIgnored(reason: Option<string>, description: Option<string>, supress: Option<bool>, blur: Option<bool>)
    ensures var opts := AuthenticateConfig(reason, description, Some(false), supress, blur);
            NormalizeOptions(opts).fallback != opts.fallback.value
  {
  }

  /** The options as evidently intended: the fallback defaults to on, and a
      `false` from the caller is kept. */
  function NormalizeOptionsCorrected(opts: AuthenticateConfig): (o: NativeOptions)
    ensures o.fallback == opts.fallback.GetOr(true)
    ensures o.(fallback := true) == NormalizeOptions(opts)
  {
    NormalizeOptions(opts).(fallback := opts.fallback != Some(false))
  }

  /** How the native promise ended. */
  datatype NativeReply = Resolved | Rejected

  /** `authenticate(opts)`: the options sent to the native module, if the
      call gets that far, and the boolean it resolves to. Without options
      reading them throws, the error is caught, and nothing is sent. */
  function Authenticate(opts: Option<AuthenticateConfig>, reply: NativeReply): (r: (Option<NativeOptions>, bool))
    ensures r.0.Some? <==> opts.Some?
    ensures r.0.Some? ==> r.0.value == NormalizeOptions(opts.value)
    // true exactly when the native promise resolved, whatever its value
    ensures r.1 <==> opts.Some? && reply.Resolved?
  {
    if opts.None? then (None, false)
    else (Some(NormalizeOptions(opts.value)), reply == Resolved)
  }

  /** The options the iOS module reads from what it is sent:
      `blurOnAuthenticate` is absent. */
  function ToIOSOptions(o: NativeOptions): (a: EmmIOS.AuthOptions)
    ensures a.reason == o.reason && a.fallback == o.fallback && a.supressEnterPassword == o.supressEnterPassword
    ensures a.blurOnAuthenticate.None?
  {
    EmmIOS.AuthOptions(o.reason, o.fallback, o.supressEnterPassword, None)
  }

  /** Through this entry point the iOS module never covers the screen for
      authentication, even when the caller asks for it. */
  lemma {:induction false} NoBlurOnAuthenticate(opts: AuthenticateConfig, s: CaptureManager.BlurState, hasKeyWindow: bool)
    ensures var sent := Authenticate(Some(opts), Resolved).0.value;
            var t := EmmIOS.BeginAuthentication(s, ToIOSOptions(sent).blurOnAuthenticate, hasKeyWindow);
            && !t.blurOnAuthenticate
            && (t.blurView.Some? <==> s.blurView.Some?)
  {
    var t := EmmIOS.BeginAuthentication(s, None, hasKeyWindow);
    assert t.blurView.Some? <==> s.blurView.Some?;
  }

  /** `AuthenticationMethods`. */
  datatype Methods = Methods(face: bool, fingerprint: bool, passcode: bool)

  /** `isDeviceSecured()`: `reply` is the native answer, absent when the
      native promise is rejected. */
  function IsDeviceSecured(reply: Option<Methods>): (r: bool)
    ensures reply.None? ==> !r
    ensures reply.Some? ==> (r <==> reply.value != Methods(false, false, false))
  {
    reply.Some? && (reply.value.face || reply.value.fingerprint || reply.value.passcode)
  }

  /** On iOS a device counts as secured when biometrics can be evaluated
      and their kind is known (every kind counts on an older system), or,
      without biometrics, when the device-owner policy can; a device whose
      biometrics are available but of no known kind counts as unsecured
      even with a passcode. */
  lemma IOSSecured(hasBiometrics: bool, hasAuthentication: bool, biometryType: EmmIOS.BiometryType, modernOS: bool)
    ensures var m := EmmIOS.DeviceSecureWith(hasBiometrics, hasAuthentication, biometryType, modernOS);
            IsDeviceSecured(Some(Methods(m.face, m.fingerprint, m.passcode))) <==>
              (hasBiometrics && (!modernOS || biometryType != EmmIOS.NoBiometry)) || (!hasBiometrics && hasAuthentication)
  {
  }

  /** On Android a device counts as secured when biometrics can
      authenticate or the keyguard is secure. */
  lemma AndroidSecured(hasBiometrics: bool, isDeviceSecure: bool)
    ensures var m := AndroidMain.DeviceSecureWith(hasBiometrics, isDeviceSecure);
            IsDeviceSecured(Some(Methods(m.face, m.fingerprint, m.passcode))) <==> hasBiometrics || isDeviceSecure
  {
  }

  /** The native calls that only one platform receives. */
  datatype NativeCall = OpenSecuritySettings | SetAppGroupId(identifier: string)

  /** `openSecuritySettings()`: forwarded on Android only. */
  function OpenSecuritySettingsCall(platform: Platform): (r: Option<NativeCall>)
    ensures r.Some? <==> platform == Android
    ensures r.Some? ==> r.value == OpenSecuritySettings
  {
    if platform == Android then Some(OpenSecuritySettings) else None
  }

  /** `setAppGroupId(identifier)`: forwarded on iOS only, so the Android
      module's unimplemented method is never reached from here. */
  function SetAppGroupIdCall(platform: Platform, identifier: string): (r: Option<NativeCall>)
    ensures r.Some? <==> platform == IOS
    ensures r.Some? ==> r.value == SetAppGroupId(identifier)
  {
    if platform == IOS then Some(SetAppGroupId(identifier)) else None
  }

  /** What a `getManagedConfig()` call resolves to, given the cache and the
      native answer (absent when it is null or undefined), and whether it
      asked the native module: a cache holding keys answers by itself; an
      empty one asks, keeps a non-null answer and returns the cache. */
  function ReadConfig(cache: Config, native: Option<Config>): (r: (Config, bool))
    ensures !r.1 <==> |cache| > 0
    ensures !r.1 ==> r.0 == cache
    ensures r.1 ==> r.0 == native.GetOr(cache)
  {
    if |cache| > 0 then (cache, false)
    else
      var config := if native.Some? then native.value else cache;
      (config, true)
  }

  /** Once a read returns keys, later reads return the same without asking
      the native module, whatever it would answer. */
  lemma {:induction false} ReadIsStable(cache: Config, native: Option<Config>, later: Option<Config>)
    requires |ReadConfig(cache, native).0| > 0
    ensures ReadConfig(ReadConfig(cache, native).0, later) == (ReadConfig(cache, native).0, false)
  {
  }

  /** An empty configuration is never kept in a useful way: every read
      asks the native module again. */
  lemma {:induction false} EmptyConfigIsRefetched(native: Option<Config>, later: Option<Config>)
    requires native.None? || |native.value| == 0
    ensures ReadConfig(map[], native) == (map[], true)
    ensures ReadConfig(ReadConfig(map[], native).0, later).1
  {
    if native.Some? {
      assert native.value == map[];
    }
  }

  /** The module's state: the cached configuration. */
  class Emm {
    var cachedConfig: Config

    constructor ()
      ensures cachedConfig == map[]
    {
      cachedConfig := map[];
    }

    /** A `managedConfigChanged` event: the cache takes the payload, and
        the callback gets it when it is a function. */
    method OnManagedConfigChanged(config: Config, callbackIsFunction: bool) returns (delivered: Option<Config>)
      modifies this
      ensures cachedConfig == config
      ensures delivered == if callbackIsFunction then Some(config) else None
    {
      cachedConfig := config;
      delivered := None;
      if callbackIsFunction {
        delivered := Some(config);
      }
    }

    /** `getManagedConfig()`: `native` is what the native module would
        answer. */
    method GetManagedConfig(native: Option<Config>) returns (config: Config, askedNative: bool)
      modifies this
      ensures (config, askedNative) == ReadConfig(old(cachedConfig), native)
      ensures cachedConfig == config
    {
      if |cachedConfig| > 0 {
        return cachedConfig, false;
      }
      if native.Some? {
        cachedConfig := native.value;
      }
      return cachedConfig, true;
    }
  }
}
