/** Local authentication with policy escalation
    (`EmmWrapper.authenticateWithPolicy`) and the table of failure messages
    (`errorMessageForFails`). The authentication context is an oracle: for
    each policy it says whether the policy can be evaluated, with which
    error code it cannot, and what its evaluation replies. */
module Policy {
  import opened Wrappers

  datatype LAPolicy = DeviceOwnerAuthenticationWithBiometrics | DeviceOwnerAuthentication

  // Raw values of the platform's `LAError.Code`.
  const AuthenticationFailed := -1
  const UserCancel := -2
  const UserFallback := -3
  const SystemCancel := -4
  const PasscodeNotSet := -5
  const BiometryNotAvailable := -6
  const BiometryNotEnrolled := -7
  const BiometryLockout := -8
  const AppCancel := -9
  const InvalidContext := -10
  const NotInteractive := -1004

  /** What the platform answers for each policy. `modernOS` tells whether the
      system is iOS 11 or later. */
  datatype Evaluator = Evaluator(
    canEvaluate: LAPolicy -> bool,
    errorCode: LAPolicy -> int,
    reply: LAPolicy -> Option<int>,
    modernOS: bool)

  /** One call of the completion handler: success, and the error code. */
  datatype Completion = Completion(success: bool, error: Option<int>)

  /** An authentication context the call created, with its fallback title
      (`None` when left untouched). */
  datatype Context = Context(policy: LAPolicy, fallbackTitle: Option<string>)

  /** The capability errors for which biometrics may escalate. */
  predicate FallbackEligible(code: int) {
    code == BiometryNotAvailable || code == BiometryNotEnrolled || code == BiometryLockout
  }

  /** Whether biometrics, unevaluable, escalate to the device-owner policy. */
  predicate Escalates(policy: LAPolicy, fallback: bool, ev: Evaluator) {
    && policy == DeviceOwnerAuthenticationWithBiometrics
    && !ev.canEvaluate(policy)
    && fallback
    && (ev.modernOS ==> FallbackEligible(ev.errorCode(policy)))
  }

  /** Whether the capability check itself calls the handler, before the call
      goes on to evaluate the policy anyway. */
  predicate EarlyFailure(policy: LAPolicy, fallback: bool, ev: Evaluator) {
    && policy == DeviceOwnerAuthenticationWithBiometrics
    && !ev.canEvaluate(policy)
    && (if ev.modernOS then !FallbackEligible(ev.errorCode(policy)) else !fallback)
  }

  function Depth(policy: LAPolicy): nat {
    if policy == DeviceOwnerAuthenticationWithBiometrics then 1 else 0
  }

  /** The handler calls, in order, of one `authenticateWithPolicy`. */
  function Completions(policy: LAPolicy, fallback: bool, ev: Evaluator): seq<Completion>
    decreases Depth(policy)
  {
    if Escalates(policy, fallback, ev) then
      Completions(DeviceOwnerAuthentication, fallback, ev)
    else
      (if EarlyFailure(policy, fallback, ev) then [Completion(false, Some(ev.errorCode(policy)))] else [])
      + [ReplyCompletion(ev.reply(policy))]
  }

  /** The evaluation reply as the handler sees it. */
  function ReplyCompletion(error: Option<int>): (c: Completion)
    ensures c.success <==> error.None?
    ensures c.error == error
  {
    if error.Some? then Completion(false, error) else Completion(true, None)
  }

  /** The contexts one `authenticateWithPolicy` creates, in order. */
  function Contexts(policy: LAPolicy, fallback: bool, supress: bool, ev: Evaluator): seq<Context>
    decreases Depth(policy)
  {
    var c := Context(policy, if supress then Some("") else None);
    if Escalates(policy, fallback, ev) then [c] + Contexts(DeviceOwnerAuthentication, fallback, supress, ev)
    else [c]
  }

  /** `authenticateWithPolicy(policy, reason, fallback, supressEnterPassword)`:
      the handler calls it makes and the contexts it creates. */
  method AuthenticateWithPolicy(policy: LAPolicy, reason: string, fallback: bool, supressEnterPassword: bool, ev: Evaluator)
    returns (calls: seq<Completion>, contexts: seq<Context>)
    ensures calls == Completions(policy, fallback, ev)
    ensures contexts == Contexts(policy, fallback, supressEnterPassword, ev)
    decreases Depth(policy)
  {
    var context := Context(policy, None);
    if supressEnterPassword {
      context := context.(fallbackTitle := Some(""));
    }
    contexts := [context];
    calls := [];

    if !ev.canEvaluate(policy) {
      if policy == DeviceOwnerAuthenticationWithBiometrics {
        var code := ev.errorCode(policy);
        if ev.modernOS {
          if code == BiometryNotAvailable || code == BiometryNotEnrolled || code == BiometryLockout {
            if fallback {
              var more, inner := AuthenticateWithPolicy(DeviceOwnerAuthentication, reason, fallback, supressEnterPassword, ev);
              calls := calls + more;
              contexts := contexts + inner;
              return;
            }
          } else {
            calls := calls + [Completion(false, Some(code))];
          }
        } else if fallback {
          var more, inner := AuthenticateWithPolicy(DeviceOwnerAuthentication, reason, fallback, supressEnterPassword, ev);
          calls := calls + more;
          contexts := contexts + inner;
          return;
        } else {
          calls := calls + [Completion(false, Some(code))];
        }
      }
    }

    var error := ev.reply(policy);
    if error.Some? {
      calls := calls + [Completion(false, error)];
      return;
    }
    calls := calls + [Completion(true, None)];
  }

  /** Escalation starts only from biometrics and goes one level deep: at
      most two contexts, the second for the device-owner policy, and every
      context gets an empty fallback title exactly when the password entry
      is suppressed. */
  lemma ContextsBounded(policy: LAPolicy, fallback: bool, supress: bool, ev: Evaluator)
    ensures var cs := Contexts(policy, fallback, supress, ev);
            && 1 <= |cs| <= 2
            && cs[0].policy == policy
            && (|cs| == 2 <==> Escalates(policy, fallback, ev))
            && (|cs| == 2 ==> cs[1].policy == DeviceOwnerAuthentication)
            && forall i | 0 <= i < |cs| :: cs[i].fallbackTitle == (if supress then Some("") else None)
  {
    if Escalates(policy, fallback, ev) {
      assert !Escalates(DeviceOwnerAuthentication, fallback, ev);
    }
  }

  /** The device-owner policy never escalates and never fails early: its
      only handler call is the evaluation reply. */
  lemma {:induction false} DeviceOwnerSingleReply(fallback: bool, ev: Evaluator)
    ensures Completions(DeviceOwnerAuthentication, fallback, ev) == [ReplyCompletion(ev.reply(DeviceOwnerAuthentication))]
  {
  }

  /** The handler is called once or twice; twice exactly when the
      capability check fails early, and then the early call carries the
      capability error and the last one is the evaluation reply. */
  lemma {:induction false} HandlerCalls(policy: LAPolicy, fallback: bool, ev: Evaluator)
    ensures var cs := Completions(policy, fallback, ev);
            && 1 <= |cs| <= 2
            && (|cs| == 2 <==> EarlyFailure(policy, fallback, ev))
            && (|cs| == 2 ==> cs[0] == Completion(false, Some(ev.errorCode(policy))))
            && cs[|cs| - 1] == ReplyCompletion(ev.reply(if Escalates(policy, fallback, ev) then DeviceOwnerAuthentication else policy))
  {
    if Escalates(policy, fallback, ev) {
      DeviceOwnerSingleReply(fallback, ev);
      assert !EarlyFailure(policy, fallback, ev);
    }
  }

  /** A fallback-eligible code without `fallback` calls no handler in the
      capability check: the only call is the biometrics evaluation reply. */
  lemma {:induction false} EligibleWithoutFallback(ev: Evaluator)
    requires ev.modernOS
    requires !ev.canEvaluate(DeviceOwnerAuthenticationWithBiometrics)
    requires FallbackEligible(ev.errorCode(DeviceOwnerAuthenticationWithBiometrics))
    ensures Completions(DeviceOwnerAuthenticationWithBiometrics, false, ev)
            == [ReplyCompletion(ev.reply(DeviceOwnerAuthenticationWithBiometrics))]
  {
  }

  /** An evaluable policy is evaluated straight away. */
  lemma {:induction false} EvaluableReplies(policy: LAPolicy, fallback: bool, ev: Evaluator)
    requires ev.canEvaluate(policy)
    ensures Completions(policy, fallback, ev) == [ReplyCompletion(ev.reply(policy))]
  {
  }

  /** The codes with a message of their own. */
  predicate KnownCode(code: int) {
    code in {AuthenticationFailed, AppCancel, InvalidContext, NotInteractive,
             PasscodeNotSet, SystemCancel, UserCancel, UserFallback}
  }

  /** The messages `errorMessageForFails` gives the known codes. */
  const AuthenticationFailedMessage := "Authentication was not successful, because user failed to provide valid credentials"
  const AppCancelMessage := "Authentication was canceled by application"
  const InvalidContextMessage := "LAContext passed to this call has been previously invalidated"
  const NotInteractiveMessage :=
    "Authentication failed, because it would require showing UI which has been forbidden by using interactionNotAllowed property"
  const PasscodeNotSetMessage := "Authentication could not start, because passcode is not set on the device"
  const SystemCancelMessage := "Authentication was canceled by system"
  const UserCancelMessage := "Authentication was canceled by user"
  const UserFallbackMessage := "Authentication was canceled, because the user tapped the fallback button"
  const UnknownError := "Unknown Error"

  /** `errorMessageForFails(errorCode)`. */
  function ErrorMessageForFails(code: int): (m: string)
    ensures |m| > 0
    ensures m == UnknownError <==> !KnownCode(code)
  {
    if code == AuthenticationFailed then AuthenticationFailedMessage
    else if code == AppCancel then AppCancelMessage
    else if code == InvalidContext then InvalidContextMessage
    else if code == NotInteractive then NotInteractiveMessage
    else if code == PasscodeNotSet then PasscodeNotSetMessage
    else if code == SystemCancel then SystemCancelMessage
    else if code == UserCancel then UserCancelMessage
    else if code == UserFallback then UserFallbackMessage
    else UnknownError
  }

  /** Each of the eight known codes has a message of its own. */
  lemma ErrorMessagesDistinct(c1: int, c2: int)
    requires KnownCode(c1) && KnownCode(c2) && c1 != c2
    ensures ErrorMessageForFails(c1) != ErrorMessageForFails(c2)
  {
  }

  /** The capability errors that may escalate have no message of their own. */
  lemma EligibleCodesUnknown(code: int)
    requires FallbackEligible(code)
    ensures ErrorMessageForFails(code) == UnknownError
  {
  }
}
