/** The older JavaScript entry point `src/index.tsx`. It looks the native
    module up as `NativeModules.RNEmm`, while the module registers itself as
    `Emm`, so every native call made through it throws. With the name it
    was evidently meant to use it behaves like `src/emm.ts`, except in
    `getManagedConfig`, which stores the native answer in the cache even
    when it is null; a null cache then makes every later read throw. Neither
    native module answers null (iOS answers an empty dictionary, Android an
    empty map when reading fails), so the null answer is a defensive input,
    not a difference between the two wrappers that a running app shows. */
module JsIndex {
  import opened Wrappers
  import JsEmm

  /** The name the native module registers under (`Emm` in the Android
      modules and the iOS bridge). */
  const RegisteredName: string := "Emm"
  /** The name this entry point looks up in `NativeModules`. */
  const LookedUpName: string := "RNEmm"

  /** Whether `NativeModules[name]` is defined; calling a method of an
      undefined module throws a `TypeError`. */
  predicate Found(name: string) {
    name == RegisteredName
  }

  /** How a read ends: resolved with a value that may be null, or rejected
      because `Object.keys(null)` throws. */
  datatype Read = Returned(value: Option<JsEmm.Config>) | Threw

  /** `getManagedConfig()` with the module looked up as `name`: the
      result, the new cache, and whether the native module was asked. */
  function ReadConfig(cache: Option<JsEmm.Config>, native: Option<JsEmm.Config>, name: string): (r: (Read, Option<JsEmm.Config>, bool))
    ensures cache.None? ==> r == (Threw, cache, false)
    ensures cache.Some? && |cache.value| > 0 ==> r == (Returned(cache), cache, false)
    // an empty cache is overwritten by whatever the native module answers
    ensures cache.Some? && |cache.value| == 0 && Found(name) ==> r == (Returned(native), native, true)
    // an undefined module rejects the read and leaves the cache alone
    ensures cache.Some? && |cache.value| == 0 && !Found(name) ==> r == (Threw, cache, false)
  {
    if cache.None? then (Threw, cache, false)
    else if |cache.value| > 0 then (Returned(cache), cache, false)
    else if !Found(name) then (Threw, cache, false)
    else (Returned(native), native, true)
  }

  /** While the native module answers with a configuration, both entry
      points read the same. */
  lemma {:induction false} ReadAsInEmm(cache: JsEmm.Config, native: JsEmm.Config)
    ensures var (read, stored, asked) := ReadConfig(Some(cache), Some(native), RegisteredName);
            var (config, askedEmm) := JsEmm.ReadConfig(cache, Some(native));
            read == Returned(Some(config)) && stored == Some(config) && asked == askedEmm
  {
  }

  /** A null answer is returned once and then makes every read throw,
      until a change event refills the cache. The native modules never
      answer null; this covers the wrapper's handling of such an input
      only. */
  lemma NullAnswerBreaksLaterReads(later: Option<JsEmm.Config>, name: string)
    requires Found(name)
    ensures var (read, stored, _) := ReadConfig(Some(map[]), None, name);
            read == Returned(None) && ReadConfig(stored, later, name).0 == Threw
  {
  }

  /** `authenticate(opts)` with the module looked up as `name`: the same
      options are built as in `src/emm.ts` (`fallback || true` included);
      they reach the native module only when it is found, and the call
      resolves to whether the native promise resolved. */
  function Authenticate(opts: Option<JsEmm.AuthenticateConfig>, reply: JsEmm.NativeReply, name: string): (r: (Option<JsEmm.NativeOptions>, bool))
    ensures r.0.Some? <==> opts.Some? && Found(name)
    ensures r.0.Some? ==> && r.0.value.fallback
                          && r.0.value.reason == opts.value.reason.GetOr("")
                          && r.0.value.description == opts.value.description.GetOr("")
                          && r.0.value.supressEnterPassword == opts.value.supressEnterPassword.GetOr(false)
    ensures r.1 <==> opts.Some? && Found(name) && reply.Resolved?
  {
    if Found(name) then JsEmm.Authenticate(opts, reply) else (None, false)
  }

  /** `isDeviceSecured()` with the module looked up as `name`: any of the
      three methods, and false when the native promise is rejected or the
      module is undefined. */
  function IsDeviceSecured(reply: Option<JsEmm.Methods>, name: string): (r: bool)
    ensures r <==> Found(name) && reply.Some? && (reply.value.face || reply.value.fingerprint || reply.value.passcode)
  {
    Found(name) && JsEmm.IsDeviceSecured(reply)
  }

  /** As written, the lookup misses: `authenticate` is false and
      `isDeviceSecured` is false whatever the device answers, and a read
      from an empty cache rejects without asking the native module. */
  lemma LookupMisses(opts: Option<JsEmm.AuthenticateConfig>, reply: JsEmm.NativeReply,
                     methods: Option<JsEmm.Methods>, native: Option<JsEmm.Config>)
    ensures !Found(LookedUpName)
    ensures !Authenticate(opts, reply, LookedUpName).1
    ensures !IsDeviceSecured(methods, LookedUpName)
    ensures ReadConfig(Some(map[]), native, LookedUpName) == (Threw, Some(map[]), false)
  {
  }

  /** Looked up by its registered name, the module answers, and
      `authenticate` and `isDeviceSecured` agree with `src/emm.ts`. */
  lemma RegisteredLookupAsInEmm(opts: Option<JsEmm.AuthenticateConfig>, reply: JsEmm.NativeReply,
                                methods: Option<JsEmm.Methods>)
    ensures Found(RegisteredName)
    ensures Authenticate(opts, reply, RegisteredName) == JsEmm.Authenticate(opts, reply)
    ensures IsDeviceSecured(methods, RegisteredName) == JsEmm.IsDeviceSecured(methods)
  {
  }

  class Emm {
    /** The name the native module is looked up by (`LookedUpName` as
        written). */
    const moduleName: string
    /** The cache; absent when it holds null. */
    var cachedConfig: Option<JsEmm.Config>

    constructor (moduleName: string)
      ensures this.moduleName == moduleName
      ensures cachedConfig == Some(map[])
    {
      this.moduleName := moduleName;
      cachedConfig := Some(map[]);
    }

    /** A `managedConfigChanged` event. */
    method OnManagedConfigChanged(config: JsEmm.Config, callbackIsFunction: bool) returns (delivered: Option<JsEmm.Config>)
      modifies this
      ensures cachedConfig == Some(config)
      ensures delivered == if callbackIsFunction then Some(config) else None
    {
      cachedConfig := Some(config);
      delivered := None;
      if callbackIsFunction {
        delivered := Some(config);
      }
    }

    /** `getManagedConfig()`. */
    method GetManagedConfig(native: Option<JsEmm.Config>) returns (read: Read, askedNative: bool)
      modifies this
      ensures (read, cachedConfig, askedNative) == ReadConfig(old(cachedConfig), native, moduleName)
    {
      if cachedConfig.None? {
        return Threw, false;
      }
      if |cachedConfig.value| > 0 {
        return Returned(cachedConfig), false;
      }
      if !Found(moduleName) {
        return Threw, false;
      }
      cachedConfig := native;
      return Returned(cachedConfig), true;
    }
  }
}
