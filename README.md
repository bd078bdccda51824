# react-native-emm, modelled in Dafny

A model of the decision logic of `react-native-emm`, a React Native module for
enterprise mobility management. It covers:

- **iOS screen-capture shield.**
  - The ranking of views by `nativeID` and class name.
  - The depth-first search for the view to protect.
  - The secure-text-field surgery on the view and layer hierarchy, with its
    two per-view records.
  - The per-controller "Protected Layer" marker and stored target.
  - The navigation-controller observer registry.
- **iOS blur cover.** The `ScreenCaptureManager` singleton with its optional
  cover and three flags, and the way `EmmWrapper` sets and clears those flags
  around authentication.
- **iOS local authentication.** Policy escalation from biometrics to the
  device-owner policy, the completion-handler calls it makes, and the table of
  failure messages.
- **iOS managed configuration.** The copy of the standard-defaults dictionary
  into the app group's shared defaults, and the change event.
- **Android.**
  - The single-flight authentication promise and the activity result that
    settles it.
  - The `BiometricPrompt` callbacks.
  - The recursive `equalBundles` comparison.
  - Change detection of the managed configuration on resume.
  - The `FLAG_SECURE` switch.
  - These are modelled for three modules: the module of `android/src/main`,
    and the old- and new-architecture modules that delegate to
    `EmmModuleImpl`.
- **JavaScript wrappers** `src/emm.ts` and `src/index.tsx`: option
  normalisation, coercion of results to booleans, and the module-level cache
  of the managed configuration.

The model is built the same way in every file:

- Platform services are inputs. This covers `LAContext`, `UserDefaults`,
  `RestrictionsManager`, `BiometricManager`, the key window, the current
  activity, whether a launch throws, and the SDK level.
- Each dispatched block runs as one atomic step.
- State that the source updates in place is a `class` whose methods are tied
  by their `ensures` to pure step functions. The lemmas are stated about those
  step functions.

Modules, one per source file or shared concept:

- `ShieldTarget`: `UIViewController+Shield.swift`, target search.
- `Hierarchy`: `UIView+Shield.swift`, with views and layers as parent maps.
- `ControllerShield`: `UIViewController+Shield.swift`, apply and remove.
- `CaptureManager`: `ScreenCaptureManager.swift`.
- `Policy`: `EmmAuthenticate.swift`.
- `EmmIOS`: `Emm.swift`.
- `ManagedConfigIOS`: `EmmManagedConfig.swift`.
- `NavTracking`: `UINavigationController+Swizzle.swift`.
- `Bundles`: `equalBundles`, shared by both Android modules.
- `AndroidMain`: `android/src/main/.../EmmModule.kt`.
- `AndroidImpl`: `EmmModuleImpl.kt`.
- `ArchOld` and `ArchNew`: the two architecture modules.
- `JsEmm`: `src/emm.ts`.
- `JsIndex`: `src/index.tsx`.
- Helper modules: `Wrappers`, `Strings`, `Views` and `Promises`. A `Promises`
  promise counts only its first settlement.

## Model

| member | source | states |
|---|---|---|
| `ShieldTarget.ViewPriority` | ios/Extensions/UIViewController+Shield.swift:6-21 | The rank is 0..4. It is 4 exactly for the `BottomSheetComponent` id. A `nativeID` containing "shielded" ranks at least 3, so the id tests win over the class-name tests. Ranks 3 and 4 need a `nativeID`. Rank 2 means a safe-area view class and rank 1 a safe-area provider class. |
| `ShieldTarget.Note` | ios/Extensions/UIViewController+Shield.swift:32-53 | One `switch` step. A bottom sheet is always recorded. The first shielded view is never replaced. A safe-area view is recorded only while no shielded or safe-area view is recorded. A provider records its first subview only while none of the three candidates is set. |
| `ShieldTarget.ByPriority` | ios/Extensions/UIViewController+Shield.swift:56-58 | Every subview explored is one of the view's subviews; the three lemmas below give the order. |
| `ShieldTarget.ByPrioritySorted` | ios/Extensions/UIViewController+Shield.swift:56-58 | The subviews are explored in descending rank. |
| `ShieldTarget.ByPriorityPermutes` | ios/Extensions/UIViewController+Shield.swift:56-58 | The sorted subviews are a permutation of the subviews. |
| `ShieldTarget.ByPriorityStable` | ios/Extensions/UIViewController+Shield.swift:56-58 | Subviews of equal rank keep their relative order. |
| `ShieldTarget.Traverse` | ios/Extensions/UIViewController+Shield.swift:29-65 | The recursive `traverse` with its loop over the sorted subviews computes the stop flag and the candidates of the reference search `Visit`. |
| `ShieldTarget.TraverseSubviews` | ios/Extensions/UIViewController+Shield.swift:56-64 | The loop over the sorted subviews stops at the first subview whose traversal stops and otherwise visits them all. Its stop flag and candidates equal those of the reference fold `VisitAll`. |
| `ShieldTarget.FindProtectionTarget` | ios/Extensions/UIViewController+Shield.swift:23-70 | The result equals the preference rule applied to the visiting order: first bottom sheet, else first shielded view, else first safe-area view, else the first subview of the first provider that has one. Any result lies in the searched subtree. |
| `ShieldTarget.VisitIsFold` | ios/Extensions/UIViewController+Shield.swift:29-65 | The early-stopping search equals the `switch` folded over the depth-first order, cut after the first bottom sheet. It stops exactly when the subtree holds a bottom sheet. |
| `ShieldTarget.TargetIsPreferred` | ios/Extensions/UIViewController+Shield.swift:69 | `bottomSheet ?? shielded ?? safeArea ?? fallback` equals the preference rule over the visiting order. |
| `ShieldTarget.TargetInTree` | ios/Extensions/UIViewController+Shield.swift:56-62 | A found target is the root view or one of its descendants. |
| `ShieldTarget.BottomSheetWins` | ios/Extensions/UIViewController+Shield.swift:33-36 | The search stops iff a bottom sheet is reachable. The target is then a rank-4 view, whatever shielded views surround it. |
| `ShieldTarget.ShieldedOfFold` | ios/Extensions/UIViewController+Shield.swift:37-41 | Over any sequence of visits the shielded candidate is the first shielded view seen, unless one was already recorded. |
| `ShieldTarget.FallbackOfFold` | ios/Extensions/UIViewController+Shield.swift:47-50 | The fallback candidate is the first subview of a provider seen before any safe-area or shielded view. A provider with no subviews contributes nothing. |
| `Hierarchy.ViewHierarchy.SetScreenCaptureProtection` | ios/Extensions/UIView+Shield.swift:8-46 | The whole new hierarchy is `SetEffect` of the old one. A view with no superview, or one that already has a secure field, is left unchanged, so protecting twice equals protecting once. Otherwise a fresh field is inserted at index 0 (behind the other subviews) of the superview iff the view is modal and neither a bottom sheet nor a permalink, and of the view itself otherwise. The field and any original superlayer are recorded. The field layer takes the view layer's place and the view layer moves under the field layer's last sublayer. |
| `Hierarchy.ViewHierarchy.Protect` | ios/Extensions/UIView+Shield.swift:17-44 | Once the host view is chosen, the method states the whole new state. A fresh field is recorded for the view, and so is the view layer's superlayer when it has one. The field becomes subview 0 of the host, behind its other subviews. Its layer takes the view layer's parent, and the view layer moves under the field layer's sublayer when there is one. |
| `Hierarchy.ViewHierarchy.RemoveScreenCaptureProtection` | ios/Extensions/UIView+Shield.swift:48-72 | The whole new hierarchy is `RemoveEffect` of the old one. An unprotected view is left unchanged. When the view layer no longer sits under the recorded original, it goes back under it and the field leaves its superview. Both records are always cleared. |
| `Hierarchy.ViewHierarchy.InsertSubviewAtBack` | ios/Extensions/UIView+Shield.swift:37-39 | `insertSubview(_, at: 0)`: the new subview goes to index 0, behind the host's other subviews, and its layer sits under the host's layer. Nothing else changes. |
| `Hierarchy.ViewHierarchy.NewSecureField` | ios/Extensions/UIView+Shield.swift:19-23 | A fresh secure field with a fresh layer, in no hierarchy yet; every existing parent, subview list and layer parent is unchanged. |
| `Hierarchy.ViewHierarchy.ReparentLayers` | ios/Extensions/UIView+Shield.swift:43-45 | The field layer takes the view layer's superlayer (the host's layer when it had none), and the view layer moves under the field layer's sublayer when one exists. No other layer parent changes. |
| `Hierarchy.ViewHierarchy.RemoveFromSuperview` | ios/Extensions/UIView+Shield.swift:61 | The view leaves its superview's subviews and its layer leaves its superlayer. A view with no superview is left unchanged. |
| `Hierarchy.ProtectThenUnprotect` | ios/Extensions/UIView+Shield.swift:8-72 | Protect then unprotect clears both records. When the field layer had a sublayer, every parent, subview list and existing layer parent is restored. Otherwise the view layer never moved and the field stays in the hierarchy. |
| `ControllerShield.ApplyScreenCaptureProtection` | ios/Extensions/UIViewController+Shield.swift:72-97 | The whole new hierarchy is `ApplyEffect` of the old one. A marked root, or a search with no target, changes nothing. Otherwise the target gets the view-level `SetEffect`, with `isModal` true iff the controller is modal in presentation or its navigation root is presented (lines 85-90). Then the root layer is named "Protected Layer" and the target is stored for the controller, and nothing else changes. |
| `ControllerShield.RemoveScreenCaptureProtection` | ios/Extensions/UIViewController+Shield.swift:99-110 | The whole new hierarchy is `RemoveControllerEffect` of the old one. With no stored target nothing changes. Otherwise the stored target gets the view-level `RemoveEffect`, the stored target is forgotten and the marker is cleared, so a later apply runs again. |
| `CaptureManager.AfterApply` | ios/ScreenCaptureManager.swift:63-82 | A cover is created only when none exists, a key window exists and (prevent ∧ ¬authenticating) ∨ (authenticating ∧ blurOnAuthenticate). The cover is blurred with radius 8. The flags never change. |
| `CaptureManager.AfterRemove` | ios/ScreenCaptureManager.swift:84-92 | The cover is removed iff it exists, a key window exists and (¬authenticating ∨ forced). The flags never change. |
| `CaptureManager.ApplyAtMostOnce` | ios/ScreenCaptureManager.swift:64-67 | Once the block of an apply has made a cover, another apply is a no-op. It does not rule out two covers when two guards pass before either block runs; see `TwoCoversOrphanOne`. |
| `CaptureManager.RadiusIgnored` | ios/ScreenCaptureManager.swift:63-77 | The `radius` argument has no effect. |
| `CaptureManager.NoKeyWindowNoChange` | ios/ScreenCaptureManager.swift:69-87 | With no key window neither apply nor remove changes anything. |
| `CaptureManager.UnforcedRemoveWhileAuthenticating` | ios/ScreenCaptureManager.swift:86 | An unforced remove during authentication keeps the cover. |
| `CaptureManager.RemoveThenApply` | ios/ScreenCaptureManager.swift:63-92 | After an unforced remove outside authentication, apply brings the cover back iff capture is prevented. |
| `CaptureManager.StepsKeepCoverJustified` | ios/ScreenCaptureManager.swift:63-92 | In every state where a cover exists only while capture is prevented or authentication runs, apply and remove keep it so. |
| `CaptureManager.CoverOutlivesPrevent` | ios/ScreenCaptureManager.swift:63-92 | For every state with a cover outside authentication, clearing the prevent flag (`setBlurScreen(false)`, ios/Emm.swift:88-90) breaks that property. No apply and no remove without a key window repairs it. The next unforced remove with a key window takes the cover away and restores it. |
| `CaptureManager.CallThenBlockIsApply` | ios/ScreenCaptureManager.swift:63-82 | With nothing queued, an apply's guard followed at once by its block is the fused step `AfterApply`. |
| `CaptureManager.RemoveBlock` | ios/ScreenCaptureManager.swift:84-92 | The block of remove follows `AfterRemove` and takes only the cover `blurView` refers to out of the window. |
| `CaptureManager.TwoCoversOrphanOne` | ios/ScreenCaptureManager.swift:63-92 | Two applies whose guards pass before the main queue runs put two covers in the window; a remove then leaves the first one on screen with `blurView` empty. |
| `CaptureManager.OrphanStays` | ios/ScreenCaptureManager.swift:63-92 | A cover that `blurView` no longer refers to stays in the window through every later call and block. |
| `CaptureManager.CorrectedKeepsOneCover` | ios/ScreenCaptureManager.swift:63-92 | With a block that checks again for an existing cover, every interleaving of calls, blocks and flag changes keeps at most one cover, the one `blurView` refers to. |
| `CaptureManager.ScreenCaptureManager.ApplyBlurEffect` | ios/ScreenCaptureManager.swift:63-82 | The singleton's new state is `AfterApply` of its old state. |
| `CaptureManager.ScreenCaptureManager.RemoveBlurEffect` | ios/ScreenCaptureManager.swift:84-92 | The singleton's new state is `AfterRemove` of its old state. |
| `Policy.AuthenticateWithPolicy` | ios/EmmAuthenticate.swift:4-43 | The handler calls and the contexts created are those of the reference definitions `Completions` and `Contexts`. |
| `Policy.ContextsBounded` | ios/EmmAuthenticate.swift:5-27 | At most two contexts are created. A second one, for the device-owner policy, exists iff biometrics escalate. Every context gets an empty fallback title exactly when password entry is suppressed. |
| `Policy.HandlerCalls` | ios/EmmAuthenticate.swift:12-42 | The handler is called once or twice. It is called twice iff the capability check fails with no escalation. The early call then carries the capability error, and the last call is always the evaluation reply. |
| `Policy.DeviceOwnerSingleReply` | ios/EmmAuthenticate.swift:13 | The device-owner policy never recurses and never fails early. |
| `Policy.EligibleWithoutFallback` | ios/EmmAuthenticate.swift:16-22 | A fallback-eligible code with `fallback` = false calls no handler in the switch. The only call is the evaluation reply. |
| `Policy.EvaluableReplies` | ios/EmmAuthenticate.swift:35-42 | An evaluable policy goes straight to evaluation. |
| `Policy.ReplyCompletion` | ios/EmmAuthenticate.swift:35-42 | The reply completes with success iff there is no error, and passes the error on. |
| `Policy.ErrorMessageForFails` | ios/EmmAuthenticate.swift:45-78 | The mapping is total and every message is non-empty. The message is "Unknown Error" iff the code is not one of the eight listed codes; `ErrorMessagesDistinct` gives each of the eight its own message. |
| `Policy.ErrorMessagesDistinct` | ios/EmmAuthenticate.swift:45-78 | Two different known codes never get the same message: each of the eight has its own. |
| `Policy.EligibleCodesUnknown` | ios/EmmAuthenticate.swift:45-78 | The escalation codes have no message of their own. |
| `EmmIOS.BeginAuthentication` | ios/Emm.swift:31-33 | Authentication sets `isAuthenticating` and `blurOnAuthenticate` = option (default false), and leaves `preventScreenCapture` alone. It adds a cover only when the option is true and a key window exists. |
| `EmmIOS.CompleteAuthentication` | ios/Emm.swift:35-42 | Success with `blurOnAuthenticate` clears `isAuthenticating` and force-removes the cover at once. Every other outcome changes nothing and asks for a later clear. |
| `EmmIOS.Settle` | ios/Emm.swift:44-50 | An error rejects with `errorMessageForFails(code)`. Otherwise the call resolves to true. Each completion does exactly one of the two. |
| `EmmIOS.EarlyFailureSettlesTwice` | ios/Emm.swift:34-51 | When the capability check fails early, the promise is settled twice: first with the capability error, then with the evaluation reply. |
| `EmmIOS.FailureKeepsCoverUntilCleared` | ios/Emm.swift:39-41 | After a failure under `blurOnAuthenticate` the cover survives an unforced remove until `isAuthenticating` is cleared later. |
| `EmmIOS.SuccessRemovesCover` | ios/Emm.swift:35-37 | A success under `blurOnAuthenticate` with a key window ends with no cover and authentication over. |
| `EmmIOS.DeviceSecureWith` | ios/Emm.swift:55-86 | At most one of face/fingerprint/passcode is true. Passcode is true iff biometrics cannot be evaluated and the device-owner policy can. Face and fingerprint follow the biometry type, and on older systems only fingerprint is reported. |
| `EmmIOS.EmmWrapper.Authenticate` | ios/Emm.swift:26-34 | The flags and cover become `BeginAuthentication` of the old ones. The completion calls are those of the biometrics policy. |
| `EmmIOS.EmmWrapper.OnCompletion` | ios/Emm.swift:34-51 | The flag change and settlement of one completion, as `CompleteAuthentication` and `Settle` state. |
| `EmmIOS.EmmWrapper.ClearAuthenticating` | ios/Emm.swift:39-41 | The delayed block changes only `isAuthenticating`, to false. |
| `EmmIOS.EmmWrapper.SetBlurScreen` | ios/Emm.swift:88-90 | Only `preventScreenCapture` changes. |
| `EmmIOS.EmmWrapper.Invalidate` | ios/Emm.swift:21-24 | A forced remove, whatever `isAuthenticating` is, and the module stops observing the defaults. |
| `EmmIOS.EmmWrapper.CaptureEvents` | ios/Emm.swift:15-19 | The defaults change and both activation notifications become observed. |
| `EmmIOS.EmmWrapper.Deliver` | ios/Emm.swift:16-18 | Resign-active maps to apply, become-active to an unforced remove, and a defaults change to the managed-config sync. A notification nobody observes changes nothing. |
| `EmmIOS.EmmWrapper.ManagedConfigChangedStep` | ios/EmmManagedConfig.swift:7-27 | The shared defaults and the emitted events follow `ManagedConfigChanged`. |
| `EmmIOS.EmmWrapper.SetAppGroupId` | ios/Emm.swift:105-108 | The app group id and its shared defaults are replaced. Nothing else changes. |
| `ManagedConfigIOS.ManagedConfigChanged` | ios/EmmManagedConfig.swift:7-27 | With no config, the shared entry is removed iff present and nothing is emitted. With a config, it is written iff an app group is set, the shared defaults exist and their copy (a missing copy counting as empty) differs. An event carrying the config is emitted iff the config exists and listeners and a delegate are there. |
| `ManagedConfigIOS.SecondSyncWritesNothing` | ios/EmmManagedConfig.swift:16-22 | A second sync with an unchanged config writes and removes nothing. |
| `ManagedConfigIOS.EmptyConfigNotCopied` | ios/EmmManagedConfig.swift:16-17 | An empty config is never copied into shared defaults that hold no copy. |
| `ManagedConfigIOS.NoAppGroupNoWrite` | ios/EmmManagedConfig.swift:20-22 | Without an app group nothing is ever written. |
| `ManagedConfigIOS.GetManagedConfig` | ios/Emm.swift:96-103 | The stored config, or an empty dictionary when none is stored. |
| `NavTracking.Swizzle` | ios/Extensions/UINavigationController+Swizzle.swift:7-13 | It acts at most once: with `didSwizzle` set it is a no-op. Otherwise, on `UINavigationController` itself, it sets `didSwizzle` and exchanges the implementations; on a subclass it does nothing. The observed set and handlers are untouched. |
| `NavTracking.Revert` | ios/Extensions/UINavigationController+Swizzle.swift:15-20 | On `UINavigationController` itself it exchanges the implementations again. It never resets `didSwizzle`. |
| `NavTracking.NoSwizzleAfterRevert` | ios/Extensions/UINavigationController+Swizzle.swift:8-20 | After swizzle and revert, swizzling again does nothing, so tracking stays off. |
| `NavTracking.Observe` | ios/Extensions/UINavigationController+Swizzle.swift:51-69 | The controller becomes observed. An existing handler is never replaced. A new handler is installed only for a controller not observed before. |
| `NavTracking.ObserveAllFacts` | ios/Extensions/UINavigationController+Swizzle.swift:40-48 | Tracking a stack observes every controller in it and keeps every existing handler. It adds protecting handlers only for controllers of the stack. |
| `NavTracking.ObserveAllTwice` | ios/Extensions/UINavigationController+Swizzle.swift:51-56 | Tracking the same stack twice equals tracking it once. |
| `NavTracking.ObservedStackUnchanged` | ios/Extensions/UINavigationController+Swizzle.swift:51-56 | A stack whose controllers are all observed changes nothing. |
| `NavTracking.NavigationTracking.TrackViewControllerChanges` | ios/Extensions/UINavigationController+Swizzle.swift:40-48 | The `forEach` loop leaves the state `ObserveAll` gives. |
| `NavTracking.NavigationTracking.SetViewControllers` | ios/Extensions/UINavigationController+Swizzle.swift:29-32 | Setting the stack observes every controller in it while tracking is installed. |
| `NavTracking.NavigationTracking.PushViewController` | ios/Extensions/UINavigationController+Swizzle.swift:34-37 | A push observes the pushed controller while tracking is installed. |
| `NavTracking.NavigationTracking.ObserveLifecycleIfNeeded` | ios/Extensions/UINavigationController+Swizzle.swift:51-56 | The new state is `Observe` of the old. |
| `NavTracking.NavigationTracking.ObserveLifecycle` | ios/Extensions/UINavigationController+Swizzle.swift:58-69 | A handler is installed only where none exists. |
| `NavTracking.NavigationTracking.SwizzleNavigationTracking` | ios/Extensions/UINavigationController+Swizzle.swift:7-13 | The new state is `Swizzle` of the old. |
| `NavTracking.NavigationTracking.RevertNavigationSwizzling` | ios/Extensions/UINavigationController+Swizzle.swift:15-20 | The new state is `Revert` of the old. |
| `NavTracking.NavigationTracking.ViewDidAppear` | ios/Extensions/UINavigationController+Swizzle.swift:60-67 | The appear handler applies protection iff it is the one installed here and `preventScreenCapture` holds at that moment, and then the new hierarchy is `ApplyEffect` of the old one. Otherwise the hierarchy is unchanged. |
| `Bundles.EqualBundles` | android/src/main/java/com/mattermost/emm/EmmModule.kt:129-157 | The loop over the union of the key sets, with its early returns, decides `BundlesEqual`. |
| `Bundles.NullRules` | android/src/main/java/com/mattermost/emm/EmmModule.kt:130-153 | null/null is equal and exactly one null is not. A null value matches only null. |
| `Bundles.EqualHaveSameKeys` | android/src/main/java/com/mattermost/emm/EmmModule.kt:135-145 | Equal bundles have the same key set. |
| `Bundles.Symmetric` | android/src/main/java/com/mattermost/emm/EmmModule.kt:129-157 | The comparison is symmetric. |
| `Bundles.Reflexive` | android/src/main/java/com/mattermost/emm/EmmModule.kt:129-157 | Every bundle equals itself. |
| `Bundles.EqualIsShallow` | android/src/main/java/com/mattermost/emm/EmmModule.kt:149-154 | Nested bundles are finally compared by reference. So when nested values with the same identity have the same contents, two bundles are equal iff they have the same keys and each value is `==` to its counterpart. The recursive comparison never changes the result. |
| `Bundles.NestedCopiesDiffer` | android/src/main/java/com/mattermost/emm/EmmModule.kt:154 | Two distinct nested bundle objects never compare equal, however equal their contents. |
| `Bundles.ArrayCopiesDiffer` | android/src/main/java/com/mattermost/emm/EmmModule.kt:154 | Two distinct array objects (`String[]`, `Parcelable[]`) never compare equal, however equal their elements. |
| `AndroidMain.AuthenticateStep` | android/src/main/java/com/mattermost/emm/EmmModule.kt:160-183 | A pending promise is kept and the new one is rejected `E_ONE_REQ_AT_A_TIME`. With no activity the call is rejected `E_ACTIVITY_DOES_NOT_EXIST` and nothing is stored. A launch failure rejects `E_FAILED_TO_SHOW_AUTH` and clears the pending promise. Otherwise the promise is stored unsettled. |
| `AndroidMain.ActivityResultStep` | android/src/main/java/com/mattermost/emm/EmmModule.kt:43-55 | A foreign request code or no pending promise changes nothing. A matching result clears the pending promise. CANCELED rejects "UserCancel", OK resolves true, and any other code settles nothing. |
| `AndroidMain.SettledOnce` | android/src/main/java/com/mattermost/emm/EmmModule.kt:44-54 | A started request is settled by its result once. A later result settles nothing. |
| `AndroidMain.ResultSettlesPending` | android/src/main/java/com/mattermost/emm/EmmModule.kt:44-54 | A result can settle only the promise that `authenticate` stored. |
| `AndroidMain.LoadResult` | android/src/main/java/com/mattermost/emm/EmmModule.kt:98-117 | Null or empty restrictions give null. Otherwise the restrictions themselves. |
| `AndroidMain.Payload` | android/src/main/java/com/mattermost/emm/EmmModule.kt:119-127 | A null config becomes the empty map. |
| `AndroidMain.EmptyRestrictionsAlwaysEmit` | android/src/main/java/com/mattermost/emm/EmmModule.kt:69-73 | The stored config is the raw bundle while the compared one is null when empty, so empty restrictions emit on every resume. |
| `AndroidMain.UnchangedFlatRestrictionsQuiet` | android/src/main/java/com/mattermost/emm/EmmModule.kt:69-73 | Non-empty restrictions with no nested bundle, whose entries are the same values as the stored ones (equal primitives, the very same array objects), do not emit. A reload makes new array objects, so array restrictions emit; see `ArrayRestrictionsAlwaysEmit`. |
| `AndroidMain.ArrayRestrictionsAlwaysEmit` | android/src/main/java/com/mattermost/emm/EmmModule.kt:69-73 | Restrictions holding an array emit on every resume, even when unchanged. |
| `AndroidMain.NestedRestrictionsAlwaysEmit` | android/src/main/java/com/mattermost/emm/EmmModule.kt:69-73 | Restrictions holding a nested bundle emit on every resume, even when unchanged. |
| `AndroidMain.DeviceSecureWith` | android/src/main/java/com/mattermost/emm/EmmModule.kt:185-194 | face = fingerprint = the biometrics result, and passcode = `isDeviceSecure`. `deviceSecureWith` in `EmmModuleImpl.kt` (lines 116-124) reports the same, so this one function models both. |
| `AndroidMain.EmmModule.constructor` | android/src/main/java/com/mattermost/emm/EmmModule.kt:58-62 | `init` stores the loaded restrictions. Nothing is pending and nothing is sent. |
| `AndroidMain.EmmModule.LoadManagedConfig` | android/src/main/java/com/mattermost/emm/EmmModule.kt:98-117 | It returns `LoadResult`. It stores the raw restrictions only when `global` is set. |
| `AndroidMain.EmmModule.SendConfigChanged` | android/src/main/java/com/mattermost/emm/EmmModule.kt:119-127 | It emits `Payload(config)` when an emitter exists. |
| `AndroidMain.EmmModule.OnReceive` | android/src/main/java/com/mattermost/emm/EmmModule.kt:33-40 | The restrictions are reloaded, stored and sent. |
| `AndroidMain.EmmModule.OnHostResume` | android/src/main/java/com/mattermost/emm/EmmModule.kt:68-75 | It emits iff `!equalBundles(fresh, stored)`, never updates the stored config, and sets `FLAG_SECURE` to `blurEnabled`. |
| `AndroidMain.EmmModule.HandleBlurScreen` | android/src/main/java/com/mattermost/emm/EmmModule.kt:87-96 | `FLAG_SECURE` is set iff `blurEnabled`, when a window exists. |
| `AndroidMain.EmmModule.EnableBlurScreen` | android/src/main/java/com/mattermost/emm/EmmModule.kt:196-200 | It stores the flag and applies it to the window. |
| `AndroidMain.EmmModule.Authenticate` | android/src/main/java/com/mattermost/emm/EmmModule.kt:159-183 | The pending promise and settlements follow `AuthenticateStep`. |
| `AndroidMain.EmmModule.OnActivityResult` | android/src/main/java/com/mattermost/emm/EmmModule.kt:42-56 | The pending promise and settlements follow `ActivityResultStep`. |
| `AndroidMain.EmmModule.GetManagedConfig` | android/src/main/java/com/mattermost/emm/EmmModule.kt:208-217 | It resolves the restrictions, or an empty map when there are none. |
| `AndroidImpl.PathFor` | android/src/main/java/com/mattermost/emm/EmmModuleImpl.kt:76 | `BiometricPrompt` is used iff SDK ≥ R. Otherwise the keyguard activity is used. |
| `AndroidImpl.PromptAuthenticators` | android/src/main/java/com/mattermost/emm/EmmModuleImpl.kt:76-78 | The prompt allows exactly BIOMETRIC_STRONG and DEVICE_CREDENTIAL, on SDK ≥ R only. |
| `AndroidImpl.PromptOutcome` | android/src/main/java/com/mattermost/emm/EmmModuleImpl.kt:83-104 | Success resolves true. An error rejects `ERROR` with the code and text. A single failed attempt rejects `FAILED`. The cancel signal rejects `CANCELLED`. |
| `AndroidImpl.FailedAttemptIsFinal` | android/src/main/java/com/mattermost/emm/EmmModuleImpl.kt:100-103 | One failed attempt settles the promise as failed, and a later success is ignored. |
| `AndroidImpl.ActivityResult` | android/src/main/java/com/mattermost/emm/EmmModuleImpl.kt:38-48 | A foreign code or a null promise settles nothing. CANCELED rejects `CANCELLED`, OK resolves true, and any other code settles nothing. |
| `AndroidImpl.ActivityResultAsInMain` | android/src/main/java/com/mattermost/emm/EmmModuleImpl.kt:38-48 | The handler settles exactly as the listener of `android/src/main` does. |
| `AndroidImpl.StartAuthentication` | android/src/main/java/com/mattermost/emm/EmmModuleImpl.kt:72-114 | The path is chosen by SDK level. A failing launch rethrows, after rejecting a non-null promise `FAILED`. Only a shown prompt registers callbacks, and only for a non-null promise. |
| `AndroidImpl.EmptyRestrictionsQuiet` | android/src/main/java/com/mattermost/emm/EmmModuleImpl.kt:50-57 | Comparing the raw bundle, empty restrictions no longer emit on every resume, unlike the main module. |
| `AndroidImpl.NonEmptyResumeAsInMain` | android/src/main/java/com/mattermost/emm/EmmModuleImpl.kt:50-57 | For non-empty restrictions both modules decide emission alike. |
| `AndroidImpl.GetManagedConfigAsInMain` | android/src/main/java/com/mattermost/emm/EmmModuleImpl.kt:136-143 | `getManagedConfig` resolves the same map as in the main module. |
| `AndroidImpl.EmmModuleImpl.LoadManagedConfig` | android/src/main/java/com/mattermost/emm/EmmModuleImpl.kt:59-70 | It returns the raw bundle, even an empty one, so empty restrictions no longer emit on resume (`EmptyRestrictionsQuiet`). It overwrites `managedConfig` only when `global` is set. |
| `AndroidImpl.EmmModuleImpl.SendConfigChanged` | android/src/main/java/com/mattermost/emm/EmmModuleImpl.kt:162-170 | It emits only with an active React instance. A null config becomes an empty map. |
| `AndroidImpl.EmmModuleImpl.HandleReceiveBroadcast` | android/src/main/java/com/mattermost/emm/EmmModuleImpl.kt:31-36 | It stores and sends the reloaded restrictions. |
| `AndroidImpl.EmmModuleImpl.HandleHostResume` | android/src/main/java/com/mattermost/emm/EmmModuleImpl.kt:50-57 | It emits iff the fresh config differs from the stored one, leaves the stored one unchanged, and applies `FLAG_SECURE`. |
| `AndroidImpl.EmmModuleImpl.HandleBlurScreen` | android/src/main/java/com/mattermost/emm/EmmModuleImpl.kt:152-160 | `FLAG_SECURE` is set iff `blurEnabled`, when a window exists. |
| `AndroidImpl.EmmModuleImpl.SetBlurScreen` | android/src/main/java/com/mattermost/emm/EmmModuleImpl.kt:126-129 | It stores the flag and applies it to the window. |
| `AndroidImpl.EmmModuleImpl.HandleActivityResult` | android/src/main/java/com/mattermost/emm/EmmModuleImpl.kt:38-48 | It settles as `ActivityResult` states. |
| `AndroidImpl.EmmModuleImpl.Authenticate` | android/src/main/java/com/mattermost/emm/EmmModuleImpl.kt:72-114 | Settlements, registered prompts and the rethrow follow `StartAuthentication`. |
| `AndroidImpl.EmmModuleImpl.OnPromptEvent` | android/src/main/java/com/mattermost/emm/EmmModuleImpl.kt:89-104 | Each callback adds the settlement `PromptOutcome` gives. |
| `AndroidImpl.EmmModuleImpl.GetManagedConfig` | android/src/main/java/com/mattermost/emm/EmmModuleImpl.kt:136-143 | It resolves the raw restrictions as a map. |
| `ArchOld.AuthenticateAsWritten` | android/src/oldarch/java/com/EmmModule.kt:55-70 | A pending promise rejects the call `E_ONE_REQ_AT_A_TIME`, and a missing activity rejects it `E_ACTIVITY_DOES_NOT_EXIST`; neither stores anything. After a normal return nothing is pending. Only an escaping launch exception leaves the promise pending. |
| `ArchOld.GuardNeverFiresAfterReturn` | android/src/oldarch/java/com/EmmModule.kt:57-69 | The guard at line 57 cannot trip between calls that returned normally. |
| `ArchOld.ThrowBlocksLaterRequests` | android/src/oldarch/java/com/EmmModule.kt:57-69 | After an escaping launch exception, every later request is rejected as one too many. |
| `ArchOld.KeyguardResultSettlesNothing` | android/src/oldarch/java/com/EmmModule.kt:67-69 | Below Android R, the activity result arrives after the pending promise was cleared, so the promise is never settled. |
| `ArchOld.AuthenticateCorrected` | android/src/oldarch/java/com/EmmModule.kt:67-69 | The intended version keeps the promise pending exactly when the keyguard activity was started. It settles and registers exactly what the written code does. |
| `ArchOld.CorrectedRequestsAreAnswered` | android/src/oldarch/java/com/EmmModule.kt:67-69 | With the correction, every started request is settled during the call, has its prompt callbacks registered, or is pending until a confirming or cancelling result settles it. |
| `ArchOld.CorrectedPendingAsInMain` | android/src/oldarch/java/com/EmmModule.kt:67-69 | On the keyguard path the corrected module keeps the promise pending exactly as the main module does. |
| `ArchOld.EmmModule.constructor` | android/src/oldarch/java/com/EmmModule.kt:33-37 | `init` loads and stores the configuration. |
| `ArchOld.EmmModule.Authenticate` | android/src/oldarch/java/com/EmmModule.kt:55-70 | The pending promise, settlements and prompts follow `AuthenticateAsWritten`. |
| `ArchOld.EmmModule.OnActivityResult` | android/src/oldarch/java/com/EmmModule.kt:26-31 | The current `authPromise` is forwarded to the implementation, then cleared. |
| `ArchOld.EmmModule.OnReceive` | android/src/oldarch/java/com/EmmModule.kt:20-24 | It delegates to `handleReceiveBroadcast`. |
| `ArchOld.EmmModule.OnHostResume` | android/src/oldarch/java/com/EmmModule.kt:41-43 | It delegates to `handleHostResume`. |
| `ArchOld.EmmModule.SetBlurScreen` | android/src/oldarch/java/com/EmmModule.kt:77-80 | It delegates to `setBlurScreen`. |
| `ArchOld.EmmModule.GetManagedConfig` | android/src/oldarch/java/com/EmmModule.kt:87-88 | It resolves the raw restrictions. |
| `ArchNew.AuthenticateAsWritten` | android/src/newarch/java/com/EmmModule.kt:53-72 | The guards run in order: pending promise, missing activity, then null options. Null options rejects `ERROR` "No options provided" without storing. The rest is as in the old architecture, so nothing is pending after a normal return. |
| `ArchNew.KeyguardResultSettlesNothing` | android/src/newarch/java/com/EmmModule.kt:69-71 | Below Android R the promise is never settled. |
| `ArchNew.NullPromiseNeverPending` | android/src/newarch/java/com/EmmModule.kt:53-72 | A null promise is never pending and never settled. |
| `ArchNew.AuthenticateCorrected` | android/src/newarch/java/com/EmmModule.kt:69-71 | The intended version, with the options guard kept. |
| `ArchNew.CorrectedKeyguardSettles` | android/src/newarch/java/com/EmmModule.kt:69-71 | With the correction, a keyguard request is pending and a confirming or cancelling result settles it. |
| `ArchNew.EmmModule.constructor` | android/src/newarch/java/com/EmmModule.kt:31-35 | `init` loads and stores the configuration. |
| `ArchNew.EmmModule.Authenticate` | android/src/newarch/java/com/EmmModule.kt:53-72 | The pending promise, settlements and prompts follow `AuthenticateAsWritten`. |
| `ArchNew.EmmModule.OnActivityResult` | android/src/newarch/java/com/EmmModule.kt:24-29 | The current `authPromise` is forwarded, then cleared. |
| `ArchNew.EmmModule.OnReceive` | android/src/newarch/java/com/EmmModule.kt:18-22 | It delegates to `handleReceiveBroadcast`: the restrictions are stored, and sent when a React instance is active. |
| `ArchNew.EmmModule.OnHostResume` | android/src/newarch/java/com/EmmModule.kt:39-41 | It delegates to `handleHostResume`: it emits iff the raw bundles differ and an instance is active, leaves the stored configuration alone and applies `FLAG_SECURE`. |
| `ArchNew.EmmModule.SetBlurScreen` | android/src/newarch/java/com/EmmModule.kt:78-80 | It delegates to `setBlurScreen`: the flag is stored and applied when a window exists. |
| `ArchNew.EmmModule.GetManagedConfig` | android/src/newarch/java/com/EmmModule.kt:86 | It returns the raw restrictions as a map. |
| `ArchNew.EmmModule.SetAppGroupId` | android/src/newarch/java/com/EmmModule.kt:92-94 | It always throws (`TODO`) and changes nothing. |
| `JsEmm.NormalizeOptions` | src/emm.ts:40-45 | `reason` and `description` default to '', `supressEnterPassword` defaults to false, and the forwarded `fallback` is always true. |
| `JsEmm.FallbackFalseIgnored` | src/emm.ts:43 | A caller's `fallback: false` is forwarded as true. |
| `JsEmm.NormalizeOptionsCorrected` | src/emm.ts:43 | The intended options keep a caller's `false` and default to true. Otherwise they equal the written ones. |
| `JsEmm.Authenticate` | src/emm.ts:38-53 | Only the four normalised keys are sent. The call yields true iff the native call resolves and false on any rejection; it never throws. |
| `JsEmm.ToIOSOptions` | src/emm.ts:40-47 | The iOS module receives no `blurOnAuthenticate`. |
| `JsEmm.NoBlurOnAuthenticate` | src/emm.ts:40-47 | Through this wrapper the iOS module never covers the screen for authentication. |
| `JsEmm.IsDeviceSecured` | src/emm.ts:66-73 | The result is face ∨ fingerprint ∨ passcode, and false on error. |
| `JsEmm.IOSSecured` | src/emm.ts:66-73 | Composed with iOS `deviceSecureWith`: secured iff known biometrics, or no biometrics and a passcode. |
| `JsEmm.AndroidSecured` | src/emm.ts:66-73 | Composed with Android `deviceSecureWith`: secured iff biometrics or a secure keyguard. |
| `JsEmm.OpenSecuritySettingsCall` | src/emm.ts:74-78 | It is forwarded on Android only. |
| `JsEmm.SetAppGroupIdCall` | src/emm.ts:79-83 | It is forwarded on iOS only. |
| `JsEmm.ReadConfig` | src/emm.ts:54-65 | A cache with keys is returned without a native call. On a miss the cache is replaced only by a non-null native answer, and the cache is returned. |
| `JsEmm.ReadIsStable` | src/emm.ts:55-57 | Once a read returns keys, later reads return the same without a native call. |
| `JsEmm.EmptyConfigIsRefetched` | src/emm.ts:54-65 | An empty configuration makes every read call the native module again. |
| `JsEmm.Emm.OnManagedConfigChanged` | src/emm.ts:26-36 | Each event replaces the cache. The callback runs only if it is a function. |
| `JsEmm.Emm.GetManagedConfig` | src/emm.ts:54-65 | The result and the new cache follow `ReadConfig`. |
| `JsIndex.Authenticate` | src/index.tsx:44-76 | Same defaults, the forwarded `fallback` always true. The options reach the native module only if it is found under the looked-up name, and the result is true iff it is found and the native call resolves. |
| `JsIndex.IsDeviceSecured` | src/index.tsx:44-93 | True iff the module is found and its answer has face ∨ fingerprint ∨ passcode; false on error. |
| `JsIndex.ReadConfig` | src/index.tsx:44-85 | A non-empty cache is returned without a native call. On a miss with the module found, the cache is overwritten unconditionally by the native answer. With the module undefined, the read rejects and the cache stays. A null cache makes the read throw. |
| `JsIndex.LookupMisses` | src/index.tsx:44 | `NativeModules.RNEmm` is not the registered `Emm`, so `authenticate` and `isDeviceSecured` are always false and a read from an empty cache rejects. |
| `JsIndex.RegisteredLookupAsInEmm` | src/index.tsx:44-93 | Looked up as `Emm`, `authenticate` and `isDeviceSecured` agree with `src/emm.ts`. |
| `JsIndex.ReadAsInEmm` | src/index.tsx:77-85 | With the module looked up as `Emm` and answering with a config, both wrappers read alike. |
| `JsIndex.NullAnswerBreaksLaterReads` | src/index.tsx:82-84 | A null native answer is returned once and then makes every read throw. Neither native module answers null (ios/Emm.swift:96-103, android/src/main/java/com/mattermost/emm/EmmModuleImpl.kt:136-143), so this is a defensive input only. |
| `JsIndex.Emm.OnManagedConfigChanged` | src/index.tsx:52-59 | Each event replaces the cache. The callback runs only if it is a function. |
| `JsIndex.Emm.GetManagedConfig` | src/index.tsx:77-85 | The result and new cache follow `ReadConfig` for the instance's module name. |

## Findings

| source | as written | input that shows it | evidently intended | confidence | as-written member | corrected member |
|---|---|---|---|---|---|---|
| src/emm.ts:43 | `fallback: opts.fallback \|\| true` forwards true whatever the caller passed (`src/index.tsx:66` is the same) | `authenticate({fallback: false})` sends `fallback: true` | default to true and keep an explicit false (`opts.fallback ?? true`) | high; not executed | `JsEmm.FallbackFalseIgnored` | `JsEmm.NormalizeOptionsCorrected` |
| android/src/oldarch/java/com/EmmModule.kt:67-69 | `authPromise` is cleared as soon as `implementation.authenticate` returns. Below Android R the keyguard activity's result arrives later and finds no promise. | SDK 29, activity present, launch succeeds, then `RESULT_OK` for request 18864: the promise is never settled | keep the promise pending while the keyguard activity runs, as `android/src/main` does | high; not executed | `ArchOld.KeyguardResultSettlesNothing` | `ArchOld.CorrectedRequestsAreAnswered` |
| android/src/newarch/java/com/EmmModule.kt:69-71 | the same early clear of `authPromise` | the same input, with non-null options | the same | high; not executed | `ArchNew.KeyguardResultSettlesNothing` | `ArchNew.CorrectedKeyguardSettles` |
| ios/ScreenCaptureManager.swift:63-82 | the guard `blurView == nil` is checked at the call, but the cover is made in a block queued on the main queue, which assigns `blurView` without checking again | capture prevented, not authenticating, no cover; `captureEvents` has run twice (ios/Emm.swift:16-19; `invalidate` at lines 22-25 removes only the wrapper's own observers), so one resign-active notification makes two applies, and both pass the guard before either block runs; then a remove: the first cover stays on screen and `blurView` is empty | at most one cover, the one `blurView` refers to (check again inside the block) | medium; not executed | `CaptureManager.TwoCoversOrphanOne` | `CaptureManager.CorrectedKeepsOneCover` |
| src/index.tsx:44 | the native module is looked up as `NativeModules.RNEmm`, but it registers as `Emm` (android/src/main/java/com/mattermost/emm/EmmModuleImpl.kt:28, android/src/main/java/com/mattermost/emm/EmmModule.kt:64-66) | `authenticate({})` on a device that would authenticate: `RNEmm.authenticate` throws a `TypeError`, caught as false | look the module up as `NativeModules.Emm` | medium; not executed | `JsIndex.LookupMisses` | `JsIndex.RegisteredLookupAsInEmm` |

The class methods `ArchOld.EmmModule.Authenticate`, `ArchNew.EmmModule.Authenticate` and `JsEmm.Authenticate` model the code as written. The corrected definitions stand beside them with the intended property proved.

## Left out

- Objective-C method swizzling is not modelled: `swizzleMethod`, `UIWindow+Swizzle.swift` and `UIViewController+Swizzle.swift`. The exchange of implementations is a flag (`NavState.exchanged`). The events it produces (appear, push, set-stack) are explicit method calls.
- Screenshot capture and Core Image blurring (`screenShot`, `createBlurEffect`) are not modelled, and neither is `EmmBlurState.swift`. The cover is present or absent, tagged with its radius.
- Timing and dispatch are not modelled: `DispatchQueue` async and asyncAfter, and the 0.5 s delay. Each block is one atomic step. The exception is the cover's apply, whose guard and queued block are separate steps in the `CaptureManager` main-queue section, with the blocks run in any order the caller picks.
  - `applyBlurEffect`'s guard and its block are fused into one step, so a flag change between them is not captured.
  - The delayed clear of `isAuthenticating` is the separate step `EmmIOS.EmmWrapper.ClearAuthenticating`.
- Platform services are oracle inputs: `LAContext`, `UserDefaults`, `RestrictionsManager`, `BiometricManager`, `KeyguardManager` and activity launches. `getKeyWindow` scene walking is reduced to "a key window exists".
- `EmmIOS.EmmWrapper.Deliver`: the notification observers pass the notification object where `radius` and `forced` are expected. The model reads become-active as an unforced remove and does not model reinterpreting the object pointer as a `Bool`.
- `EmmIOS.EmmWrapper.Authenticate`: the force casts of `reason`, `fallback` and `supressEnterPassword` crash on missing keys. The model takes the three as present.
- `Strings.Lower` lowercases ASCII letters only, not the full Unicode case mapping of `lowercased()`.
- `ShieldTarget.ByPriority` sorts stably. Swift's `sorted(by:)` does not promise stability, so for views of equal rank the model fixes one order.
- `Hierarchy.ViewHierarchy.RemoveScreenCaptureProtection` leaves out the temporary layer added and removed at lines 57-65, which leaves no trace in the hierarchy.
- Swift `NSDictionary` equality and property-list values are modelled as maps over strings, integers and booleans.
- Process control, receivers and emitters are not modelled: `exitApp`, `openSecuritySettings` on the native side, receiver register and unregister, and event delivery. An emitted event is recorded as its payload.
- The old architecture's `applyBlurEffect`/`removeBlurEffect` (android/src/oldarch/java/com/EmmModule.kt:110-118) are left out. They call methods that `EmmModuleImpl.kt` does not define.
- `ArchOld.EmmModule.SetAppGroupId` has no contract: `setAppGroupId`, `addListener` and `removeListeners` have empty bodies, and the model method has no `modifies` clause.
- `src/index.tsx:46-47` builds `new NativeEventEmitter(RNEmm)` on iOS with the undefined module. What that does depends on React Native's `NativeEventEmitter`, which is not part of this model; `JsIndex.Emm.OnManagedConfigChanged` models delivery as if events arrive.
- `EmmIOS.EmmWrapper.CaptureEvents`: the observer registrations are booleans (`observesDefaults`, `managerObservesActivation`). `NotificationCenter` keeps one registration per call (ios/Emm.swift:16-19), so a repeated `captureEvents` delivers each notification more than once; the model does not count registrations. Its effect on the cover is modelled directly by `CaptureManager.TwoCoversOrphanOne`.
- `NavTracking.NavigationTracking.ViewDidAppear` and `ControllerShield.ApplyScreenCaptureProtection` take the searched `ViewNode` tree as an input. The tree is tied to the controller's root view (`tree.view == c.view`) but not to the subviews map of `Hierarchy.ViewHierarchy`.
- UI, type declarations, packaging and debug logging are not modelled: `src/context.tsx`, `NativeEmm.ts`, `EmmPackage.kt`, `print`/`Log` and `logLayerHierarchy`.
