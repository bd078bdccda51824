/** Shielding a whole screen (`UIViewController.applyScreenCaptureProtection`
    and `removeScreenCaptureProtection`): the controller's root layer carries
    a marker name, and the view chosen by the target search is protected
    and remembered for the later removal. */
module ControllerShield {
  import opened Wrappers
  import opened Views
  import ShieldTarget
  import opened Hierarchy

  const ProtectedLayerName := "Protected Layer"

  /** The controller's root layer carries the marker. */
  predicate Marked(layerName: map<Layer, string>, c: ViewController) {
    c.view.layer in layerName && layerName[c.view.layer] == ProtectedLayerName
  }

  /** Whether the screen counts as modal: the controller is modal in
      presentation, or its navigation controller's first controller was
      presented by another one. */
  function IsModal(isModalInPresentation: bool, navigationRootPresented: bool): bool {
    isModalInPresentation || navigationRootPresented
  }

  /** What `applyScreenCaptureProtection()` does, with `mid` the hierarchy
      right after the target is protected. A marked controller, or one
      without a target, is left as it is; otherwise the target is protected
      as the view shield does it (with the modality above), then the root
      layer is marked and the target is remembered. */
  predicate ApplyEffect(s: Snapshot, mid: Snapshot, t: Snapshot, c: ViewController, tree: ViewNode,
                        isModalInPresentation: bool, navigationRootPresented: bool, fieldHasSublayer: bool) {
    if Marked(s.layerName, c) || ShieldTarget.ProtectionTarget(tree).None? then t == s
    else
      var target := ShieldTarget.ProtectionTarget(tree).value;
      && SetEffect(s, mid, target, IsModal(isModalInPresentation, navigationRootPresented), fieldHasSublayer)
      && t == mid.(layerName := mid.layerName[c.view.layer := ProtectedLayerName],
                   protectedView := mid.protectedView[c := target])
  }

  /** What `removeScreenCaptureProtection()` does. Without a remembered view
      nothing changes; otherwise that view is unprotected as the view shield
      does it, forgotten, and the marker is cleared, so that a later apply
      runs again. */
  predicate RemoveControllerEffect(s: Snapshot, t: Snapshot, c: ViewController) {
    if c !in s.protectedView then t == s
    else
      && RemoveEffect(s, t.(layerName := s.layerName, protectedView := s.protectedView), s.protectedView[c])
      && t.protectedView == s.protectedView - {c}
      && t.layerName == s.layerName - {c.view.layer}
  }

  /** `applyScreenCaptureProtection()`. `tree` is the controller's view with
      its subviews; `isModalInPresentation` and `navigationRootPresented`
      give the modality; `fieldHasSublayer` is as for the view shield. */
  method ApplyScreenCaptureProtection(h: ViewHierarchy, c: ViewController, tree: ViewNode,
                                      isModalInPresentation: bool, navigationRootPresented: bool,
                                      fieldHasSublayer: bool)
    returns (ghost mid: Snapshot)
    requires tree.view == c.view
    modifies h
    ensures ApplyEffect(old(h.State()), mid, h.State(), c, tree, isModalInPresentation, navigationRootPresented, fieldHasSublayer)
    ensures !Marked(old(h.layerName), c) && ShieldTarget.ProtectionTarget(tree).Some? ==>
              var target := ShieldTarget.ProtectionTarget(tree).value;
              && Marked(h.layerName, c)
              && (target in old(h.superview) && target !in old(h.secureField) ==>
                    && target in h.secureField && fresh(h.secureField[target]) && fresh(h.secureField[target].layer))
  {
    mid := h.State();
    if c.view.layer in h.layerName && h.layerName[c.view.layer] == ProtectedLayerName {
      return;  // already protected
    }
    var target := ShieldTarget.FindProtectionTarget(tree);
    if target.None? {
      return;
    }
    var t := target.value;
    var isModal := isModalInPresentation || navigationRootPresented;
    h.SetScreenCaptureProtection(t, isModal, fieldHasSublayer);
    mid := h.State();
    h.layerName := h.layerName[c.view.layer := ProtectedLayerName];
    h.protectedView := h.protectedView[c := t];
    assert h.State() == mid.(layerName := mid.layerName[c.view.layer := ProtectedLayerName],
                             protectedView := mid.protectedView[c := t]);
  }

  /** `removeScreenCaptureProtection()`. */
  method RemoveScreenCaptureProtection(h: ViewHierarchy, c: ViewController)
    modifies h
    ensures RemoveControllerEffect(old(h.State()), h.State(), c)
    ensures c in old(h.protectedView) ==> !Marked(h.layerName, c)
  {
    if c !in h.protectedView {
      return;  // nothing stored
    }
    var t := h.protectedView[c];
    h.RemoveScreenCaptureProtection(t);
    h.protectedView := h.protectedView - {c};
    h.layerName := h.layerName - {c.view.layer};
  }
}
