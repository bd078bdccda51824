/** The blur cover of `ScreenCaptureManager`: one optional cover image over
    the key window and three flags that decide when it may be added or
    removed. The step functions are the rules; the class is the singleton
    whose methods follow them. Those steps fuse an apply's guard with the
    block it dispatches; the main-queue section below keeps them apart.
    "A key window exists" is an input. */
module CaptureManager {
  import opened Wrappers

  /** The blur radius the cover is always drawn with. */
  const BlurRadius: real := 8.0
  /** The default of the ignored `radius` argument. */
  const DefaultRadius: real := 8.0

  /** A cover image view, by the radius its image was blurred with. */
  datatype Cover = Cover(radius: real)

  datatype BlurState = BlurState(
    blurView: Option<Cover>,
    isAuthenticating: bool,
    blurOnAuthenticate: bool,
    preventScreenCapture: bool)

  /** The flag condition under which `applyBlurEffect` may add a cover. */
  predicate CoverWanted(s: BlurState) {
    (s.preventScreenCapture && !s.isAuthenticating) || (s.isAuthenticating && s.blurOnAuthenticate)
  }

  /** The three flags of `s`. */
  function Flags(s: BlurState): (bool, bool, bool) {
    (s.isAuthenticating, s.blurOnAuthenticate, s.preventScreenCapture)
  }

  /** `applyBlurEffect(radius)` with its dispatched block. */
  function AfterApply(s: BlurState, radius: real, hasKeyWindow: bool): (r: BlurState)
    ensures Flags(r) == Flags(s)
    ensures r.blurView.Some? <==> s.blurView.Some? || (CoverWanted(s) && hasKeyWindow)
    ensures s.blurView.Some? ==> r == s
    ensures r != s ==> r.blurView == Some(Cover(BlurRadius))
  {
    if s.blurView.None? && CoverWanted(s) && hasKeyWindow then
      s.(blurView := Some(Cover(BlurRadius)))
    else
      s
  }

  /** `removeBlurEffect(forced)`, whose guard is evaluated inside its
      dispatched block. */
  function AfterRemove(s: BlurState, forced: bool, hasKeyWindow: bool): (r: BlurState)
    ensures Flags(r) == Flags(s)
    ensures s.blurView.Some? && r.blurView.None? <==>
              s.blurView.Some? && (!s.isAuthenticating || forced) && hasKeyWindow
    ensures r.blurView.Some? ==> r == s
    ensures s.blurView.None? ==> r == s
  {
    if s.blurView.Some? && (!s.isAuthenticating || forced) && hasKeyWindow then
      s.(blurView := None)
    else
      s
  }

  /** Once an apply has made a cover, a second apply, whatever its
      inputs, changes nothing: the guard at the call sees the cover. */
  lemma ApplyAtMostOnce(s: BlurState, r1: real, k1: bool, r2: real, k2: bool)
    requires AfterApply(s, r1, k1).blurView.Some?
    ensures AfterApply(AfterApply(s, r1, k1), r2, k2) == AfterApply(s, r1, k1)
  {
  }

  /** The `radius` argument never matters. */
  lemma RadiusIgnored(s: BlurState, r1: real, r2: real, k: bool)
    ensures AfterApply(s, r1, k) == AfterApply(s, r2, k)
  {
  }

  /** Without a key window neither step changes anything. */
  lemma NoKeyWindowNoChange(s: BlurState, radius: real, forced: bool)
    ensures AfterApply(s, radius, false) == s
    ensures AfterRemove(s, forced, false) == s
  {
  }

  /** An unforced remove during authentication keeps the cover. */
  lemma UnforcedRemoveWhileAuthenticating(s: BlurState, k: bool)
    requires s.isAuthenticating
    ensures AfterRemove(s, false, k) == s
  {
  }

  /** Removing and then re-applying under unchanged flags brings the cover
      back exactly when the flags want one. */
  lemma RemoveThenApply(s: BlurState, radius: real)
    requires s.blurView.Some? && !s.isAuthenticating
    ensures AfterRemove(s, false, true).blurView.None?
    ensures AfterApply(AfterRemove(s, false, true), radius, true).blurView.Some? <==> s.preventScreenCapture
  {
  }

  /** A cover is there only while capture is prevented or authentication
      is running. */
  predicate CoverJustified(s: BlurState) {
    s.blurView.Some? ==> s.preventScreenCapture || s.isAuthenticating
  }

  /** Both steps keep a justified cover justified. */
  lemma StepsKeepCoverJustified(s: BlurState, radius: real, forced: bool, k: bool)
    requires CoverJustified(s)
    ensures CoverJustified(AfterApply(s, radius, k))
    ensures CoverJustified(AfterRemove(s, forced, k))
  {
  }

  /** `setBlurScreen(false)` while a cover is shown outside authentication
      leaves the cover in place without justification; it goes only with
      the next unforced remove that finds a key window, and until then no
      unforced remove without a key window and no apply takes it away. */
  lemma CoverOutlivesPrevent(s: BlurState, radius: real, forced: bool)
    requires s.blurView.Some? && !s.isAuthenticating
    ensures var t := s.(preventScreenCapture := false);
            && !CoverJustified(t)
            && AfterApply(t, radius, true) == t
            && AfterRemove(t, forced, false) == t
            && AfterRemove(t, false, true).blurView.None?
            && CoverJustified(AfterRemove(t, false, true))
  {
  }

  // ---------------------------------------------------------------------
  // The main queue. `applyBlurEffect` evaluates its guard at the call and
  // makes the cover in a block that runs later on the main queue, so two
  // calls can both pass the guard before either block runs. The steps
  // above fuse the guard with its block; here they are apart, and the
  // cover image views in the key window are counted by identity.
  // ---------------------------------------------------------------------

  /** The flags and `blurView` (`s`), the cover image views in the key
      window (`window`), the one `blurView` refers to (`current`, meaningful
      while `s.blurView` is set), how many covers were made so far (`made`,
      the next one's identity), and the apply blocks waiting (`queued`). */
  datatype MainQueue = MainQueue(s: BlurState, window: set<nat>, current: nat, made: nat, queued: nat)

  /** The covers in the window that `blurView` does not refer to: nothing
      can ever remove them. */
  function Orphans(q: MainQueue): set<nat> {
    if q.s.blurView.Some? then q.window - {q.current} else q.window
  }

  /** `applyBlurEffect` at the call: the guard, which queues the block. */
  function ApplyCall(q: MainQueue): MainQueue {
    if q.s.blurView.None? && CoverWanted(q.s) then q.(queued := q.queued + 1) else q
  }

  /** The queued block of `applyBlurEffect` as written: with a key window it
      makes a new cover, adds it to the window and points `blurView` at it,
      whatever `blurView` held. */
  function ApplyBlock(q: MainQueue, hasKeyWindow: bool): MainQueue
    requires q.queued > 0
  {
    if hasKeyWindow then
      MainQueue(q.s.(blurView := Some(Cover(BlurRadius))), q.window + {q.made}, q.made, q.made + 1, q.queued - 1)
    else
      q.(queued := q.queued - 1)
  }

  /** The block of `removeBlurEffect`: it removes the cover `blurView`
      refers to, and only that one. */
  function RemoveBlock(q: MainQueue, forced: bool, hasKeyWindow: bool): (r: MainQueue)
    ensures r.s == AfterRemove(q.s, forced, hasKeyWindow)
  {
    if q.s.blurView.Some? && (!q.s.isAuthenticating || forced) && hasKeyWindow then
      q.(s := q.s.(blurView := None), window := q.window - {q.current})
    else
      q
  }

  /** The block of `applyBlurEffect` as intended: it checks again that no
      cover exists before it makes one. */
  function ApplyBlockCorrected(q: MainQueue, hasKeyWindow: bool): MainQueue
    requires q.queued > 0
  {
    if q.s.blurView.None? && hasKeyWindow then
      MainQueue(q.s.(blurView := Some(Cover(BlurRadius))), q.window + {q.made}, q.made, q.made + 1, q.queued - 1)
    else
      q.(queued := q.queued - 1)
  }

  /** With nothing else queued, a call followed at once by its block is the
      fused step `AfterApply`, for the block as written and as intended. */
  lemma CallThenBlockIsApply(q: MainQueue, radius: real, k: bool)
    requires q.queued == 0
    ensures var c := ApplyCall(q);
            && (c.queued == 0 ==> c.s == AfterApply(q.s, radius, k))
            && (c.queued == 1 ==> ApplyBlock(c, k).s == AfterApply(q.s, radius, k))
            && (c.queued == 1 ==> ApplyBlockCorrected(c, k).s == AfterApply(q.s, radius, k))
  {
  }

  /** Two applies whose guards both pass before the main queue runs put two
      covers in the window: a second `captureEvents` registers the
      resign-active observer again, and `invalidate` removes only the
      wrapper's own observers, so one resign-active notification calls
      `applyBlurEffect` twice (the JavaScript `applyBlurEffect` beside the
      observer does the same). `blurView` keeps only the second cover,
      so a remove takes that one away and leaves the first on screen. */
  lemma TwoCoversOrphanOne()
    ensures var q0 := MainQueue(BlurState(None, false, false, true), {}, 0, 0, 0);
            var q1 := ApplyCall(ApplyCall(q0));
            var q2 := ApplyBlock(ApplyBlock(q1, true), true);
            var q3 := RemoveBlock(q2, false, true);
            && q1.queued == 2
            && q2.window == {0, 1}
            && q3.s.blurView.None? && Orphans(q3) == {0}
  {
    var q0 := MainQueue(BlurState(None, false, false, true), {}, 0, 0, 0);
    var q2 := ApplyBlock(ApplyBlock(ApplyCall(ApplyCall(q0)), true), true);
    assert q2.window == {0, 1} && q2.current == 1;
    assert q2.window - {1} == {0};
  }

  /** An orphaned cover stays in the window through every later step. */
  lemma OrphanStays(q: MainQueue, id: nat, forced: bool, k: bool)
    requires id in Orphans(q) && q.current < q.made && id < q.made
    ensures id in Orphans(ApplyCall(q))
    ensures id in Orphans(RemoveBlock(q, forced, k))
    ensures q.queued > 0 ==> id in Orphans(ApplyBlock(q, k)) && id in Orphans(ApplyBlockCorrected(q, k))
  {
  }

  /** At most one cover, the one `blurView` refers to, and identities below
      `made`. */
  predicate Tidy(q: MainQueue) {
    && (q.s.blurView.Some? ==> q.window == {q.current} && q.current < q.made)
    && (q.s.blurView.None? ==> q.window == {})
  }

  /** With the corrected block, every interleaving of calls, blocks and
      flag changes (the setters and `authenticate` only touch the flags)
      keeps at most one cover, and no cover is orphaned. */
  lemma CorrectedKeepsOneCover(q: MainQueue, forced: bool, k: bool, s': BlurState)
    requires Tidy(q)
    ensures Tidy(ApplyCall(q))
    ensures Tidy(RemoveBlock(q, forced, k))
    ensures q.queued > 0 ==> Tidy(ApplyBlockCorrected(q, k))
    ensures s'.blurView == q.s.blurView ==> Tidy(q.(s := s'))
    ensures Orphans(q) == {} && |q.window| <= 1
  {
  }

  /** The shared manager. */
  class ScreenCaptureManager {
    var blurView: Option<Cover>
    var isAuthenticating: bool
    var blurOnAuthenticate: bool
    var preventScreenCapture: bool

    function State(): BlurState
      reads this
    {
      BlurState(blurView, isAuthenticating, blurOnAuthenticate, preventScreenCapture)
    }

    constructor ()
      ensures State() == BlurState(None, false, false, false)
    {
      blurView := None;
      isAuthenticating := false;
      blurOnAuthenticate := false;
      preventScreenCapture := false;
    }

    /** `applyBlurEffect(radius:)`; the guard is read at the call and the
        cover is made in the block, when a key window exists. */
    method ApplyBlurEffect(radius: real, hasKeyWindow: bool)
      modifies this
      ensures State() == AfterApply(old(State()), radius, hasKeyWindow)
    {
      if blurView.None? && ((preventScreenCapture && !isAuthenticating) || (isAuthenticating && blurOnAuthenticate)) {
        if hasKeyWindow {
          blurView := Some(Cover(BlurRadius));
        }
      }
    }

    /** `removeBlurEffect(forced:)`. */
    method RemoveBlurEffect(forced: bool, hasKeyWindow: bool)
      modifies this
      ensures State() == AfterRemove(old(State()), forced, hasKeyWindow)
    {
      if blurView.Some? && (!isAuthenticating || forced) && hasKeyWindow {
        blurView := None;
      }
    }
  }
}
