/** Navigation tracking (`UINavigationController` extension): once the stack
    setter and `pushViewController` are exchanged for tracking versions,
    every controller that enters a stack is observed once, and its appear
    handler protects the screen while capture is prevented. The exchange of
    implementations is a flag here. */
module NavTracking {
  import opened Views
  import opened Hierarchy
  import ControllerShield

  /** A `viewDidAppearHandler`: the one installed here, or one installed by
      someone else. */
  datatype AppearHandler = ProtectIfPrevented | Foreign

  datatype NavState = NavState(
    /** the static `didSwizzle` */
    didSwizzle: bool,
    /** whether the tracking implementations are currently installed */
    exchanged: bool,
    /** controllers with the `didObserveLifecycle` flag */
    observed: set<ViewController>,
    handlers: map<ViewController, AppearHandler>)

  /** `swizzleNavigationTracking()`; `onBaseClass` is whether it is called
      on `UINavigationController` itself. */
  function Swizzle(s: NavState, onBaseClass: bool): (r: NavState)
    ensures r.observed == s.observed && r.handlers == s.handlers
    ensures r.didSwizzle == (s.didSwizzle || onBaseClass)
    // acts at most once
    ensures s.didSwizzle ==> r == s
    ensures r != s ==> r.exchanged == !s.exchanged
  {
    if !onBaseClass || s.didSwizzle then s
    else s.(didSwizzle := true, exchanged := !s.exchanged)
  }

  /** `revertNavigationSwizzling()`: exchanges the implementations back, and
      does not reset `didSwizzle`. */
  function Revert(s: NavState, onBaseClass: bool): (r: NavState)
    ensures r.didSwizzle == s.didSwizzle && r.observed == s.observed && r.handlers == s.handlers
    ensures r.exchanged == (if onBaseClass then !s.exchanged else s.exchanged)
  {
    if !onBaseClass then s else s.(exchanged := !s.exchanged)
  }

  /** After a revert, swizzling again does nothing, so tracking stays off. */
  lemma NoSwizzleAfterRevert(s: NavState)
    requires !s.didSwizzle && !s.exchanged
    ensures var r := Swizzle(Revert(Swizzle(s, true), true), true);
            r.didSwizzle && !r.exchanged
  {
  }

  /** `observeLifecycleIfNeeded(vc)` with `observeLifecycle(of:)`. */
  function Observe(s: NavState, vc: ViewController): (r: NavState)
    ensures r.didSwizzle == s.didSwizzle && r.exchanged == s.exchanged
    ensures r.observed == s.observed + {vc}
    // an existing handler is never replaced
    ensures forall w | w in s.handlers :: w in r.handlers && r.handlers[w] == s.handlers[w]
    ensures vc !in s.observed ==> vc in r.handlers
    ensures forall w | w in r.handlers && w !in s.handlers :: w == vc && vc !in s.observed && r.handlers[w] == ProtectIfPrevented
  {
    if vc in s.observed then s
    else
      s.(observed := s.observed + {vc},
         handlers := if vc in s.handlers then s.handlers else s.handlers[vc := ProtectIfPrevented])
  }

  /** Each controller of `stack`, in order, observed if needed. */
  function ObserveAll(s: NavState, stack: seq<ViewController>): NavState
    decreases |stack|
  {
    if stack == [] then s else ObserveAll(Observe(s, stack[0]), stack[1..])
  }

  /** Tracking a stack observes all its controllers, gives a handler to each
      one not observed before, keeps every existing handler, and adds only
      protecting handlers of controllers in the stack. */
  lemma {:induction false} ObserveAllFacts(s: NavState, stack: seq<ViewController>)
    ensures var r := ObserveAll(s, stack);
            && r.didSwizzle == s.didSwizzle && r.exchanged == s.exchanged
            && r.observed == s.observed + (set v | v in stack)
            && (forall v | v in stack && v !in s.observed :: v in r.handlers)
            && (forall w | w in s.handlers :: w in r.handlers && r.handlers[w] == s.handlers[w])
            && (forall w | w in r.handlers && w !in s.handlers :: w in stack && r.handlers[w] == ProtectIfPrevented)
    decreases |stack|
  {
    if stack != [] {
      var t := Observe(s, stack[0]);
      ObserveAllFacts(t, stack[1..]);
      assert forall v | v in stack[1..] :: v in stack;
      assert (set v | v in stack) == {stack[0]} + (set v | v in stack[1..]) by {
        forall v | v in stack ensures v == stack[0] || v in stack[1..] {
          if v != stack[0] {
            var i :| 0 <= i < |stack| && stack[i] == v;
            assert stack[1..][i - 1] == v;
          }
        }
      }
    }
  }

  /** Observing is idempotent: tracking the same stack again changes
      nothing. */
  lemma {:induction false} ObserveAllTwice(s: NavState, stack: seq<ViewController>)
    ensures ObserveAll(ObserveAll(s, stack), stack) == ObserveAll(s, stack)
  {
    ObserveAllFacts(s, stack);
    ObservedStackUnchanged(ObserveAll(s, stack), stack);
  }

  /** A stack whose controllers are all observed already changes nothing. */
  lemma {:induction false} ObservedStackUnchanged(s: NavState, stack: seq<ViewController>)
    requires forall v | v in stack :: v in s.observed
    ensures ObserveAll(s, stack) == s
    decreases |stack|
  {
    if stack != [] {
      assert stack[0] in stack;
      ObservedStackUnchanged(s, stack[1..]);
    }
  }

  /** Whether the appear handler of `vc` protects the screen now. */
  predicate AppearProtects(handlers: map<ViewController, AppearHandler>, vc: ViewController, preventScreenCapture: bool) {
    vc in handlers && handlers[vc] == ProtectIfPrevented && preventScreenCapture
  }

  /** The tracking state shared by all navigation controllers. */
  class NavigationTracking {
    var didSwizzle: bool
    var exchanged: bool
    var observed: set<ViewController>
    var handlers: map<ViewController, AppearHandler>

    function State(): NavState
      reads this
    {
      NavState(didSwizzle, exchanged, observed, handlers)
    }

    constructor (handlers: map<ViewController, AppearHandler>)
      ensures State() == NavState(false, false, {}, handlers)
    {
      didSwizzle := false;
      exchanged := false;
      observed := {};
      this.handlers := handlers;
    }

    method SwizzleNavigationTracking(onBaseClass: bool)
      modifies this
      ensures State() == Swizzle(old(State()), onBaseClass)
    {
      if !onBaseClass || didSwizzle {
        return;
      }
      didSwizzle := true;
      exchanged := !exchanged;
    }

    method RevertNavigationSwizzling(onBaseClass: bool)
      modifies this
      ensures State() == Revert(old(State()), onBaseClass)
    {
      if !onBaseClass {
        return;
      }
      exchanged := !exchanged;
    }

    /** `observeLifecycleIfNeeded(_:)`. */
    method ObserveLifecycleIfNeeded(vc: ViewController)
      modifies this
      ensures State() == Observe(old(State()), vc)
    {
      if vc !in observed {
        ObserveLifecycle(vc);
        observed := observed + {vc};
      }
    }

    /** `observeLifecycle(of:)`: installs the handler unless one exists. */
    method ObserveLifecycle(vc: ViewController)
      modifies this
      ensures handlers == (if vc in old(handlers) then old(handlers) else old(handlers)[vc := ProtectIfPrevented])
      ensures didSwizzle == old(didSwizzle) && exchanged == old(exchanged) && observed == old(observed)
    {
      if vc !in handlers {
        handlers := handlers[vc := ProtectIfPrevented];
      }
    }

    /** `trackViewControllerChanges()` over the stack `stack`. */
    method TrackViewControllerChanges(stack: seq<ViewController>)
      modifies this
      ensures State() == ObserveAll(old(State()), stack)
    {
      var i := 0;
      while i < |stack|
        invariant 0 <= i <= |stack|
        invariant ObserveAll(State(), stack[i..]) == ObserveAll(old(State()), stack)
      {
        assert stack[i..][1..] == stack[i + 1..];
        ObserveLifecycleIfNeeded(stack[i]);
        i := i + 1;
      }
    }

    /** Setting a navigation stack: tracked only while the tracking
        implementations are installed. */
    method SetViewControllers(stack: seq<ViewController>)
      modifies this
      ensures State() == if old(exchanged) then ObserveAll(old(State()), stack) else old(State())
    {
      if exchanged {
        TrackViewControllerChanges(stack);
      }
    }

    /** Pushing a controller: observed only while the tracking
        implementations are installed. */
    method PushViewController(vc: ViewController)
      modifies this
      ensures State() == if old(exchanged) then Observe(old(State()), vc) else old(State())
    {
      if exchanged {
        ObserveLifecycleIfNeeded(vc);
      }
    }

    /** `vc` appeared: its handler protects the screen when it is the one
        installed here and capture is prevented at that moment. */
    method ViewDidAppear(vc: ViewController, h: ViewHierarchy, tree: ViewNode, preventScreenCapture: bool,
                         isModalInPresentation: bool, navigationRootPresented: bool, fieldHasSublayer: bool)
      returns (protects: bool, ghost mid: Snapshot)
      requires tree.view == vc.view
      modifies h
      ensures protects == AppearProtects(handlers, vc, preventScreenCapture)
      ensures !protects ==> h.State() == old(h.State())
      ensures protects ==>
                ControllerShield.ApplyEffect(old(h.State()), mid, h.State(), vc, tree,
                                             isModalInPresentation, navigationRootPresented, fieldHasSublayer)
    {
      mid := h.State();
      protects := vc in handlers && handlers[vc] == ProtectIfPrevented && preventScreenCapture;
      if protects {
        mid := ControllerShield.ApplyScreenCaptureProtection(h, vc, tree, isModalInPresentation, navigationRootPresented, fieldHasSublayer);
      }
    }
  }
}
