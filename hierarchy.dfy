/** The view and layer hierarchy as the screen shield changes it
    (`UIView.setScreenCaptureProtection` and
    `UIView.removeScreenCaptureProtection`), with the records the shield
    keeps as associated objects. Parents are kept as maps; a view or layer
    missing from a map has no parent. */
module Hierarchy {
  import opened Wrappers
  import opened Strings
  import opened Views
  import ShieldTarget

  const OriginalLayerName := "originalLayer"
  const SecureFieldLayerName := "secureTextFieldLayer"

  /** The subviews of `v` (none when `v` has no entry). */
  function SubviewsOf(m: map<View, seq<View>>, v: View): seq<View> {
    if v in m then m[v] else []
  }

  /** `s` without `x`. */
  function Without(s: seq<View>, x: View): (r: seq<View>)
    ensures x !in r
    ensures forall y | y in s && y != x :: y in r
    ensures x !in s ==> r == s
  {
    if s == [] then []
    else (if s[0] == x then [] else [s[0]]) + Without(s[1..], x)
  }

  /** A second update of the same key wins. */
  lemma UpdateOverwrites<K, V>(m: map<K, V>, k: K, a: V, b: V)
    ensures m[k := a][k := b] == m[k := b]
  {
  }

  /** Whether the secure field goes into the superview (a modal that is
      neither a bottom sheet nor a permalink) rather than into the view. */
  predicate CoversSuperview(v: View, isModal: bool) {
    var isBottomSheet := v.nativeID == Some(ShieldTarget.BottomSheetID);
    var isPermalink := v.nativeID.Some? && Contains(Lower(v.nativeID.value), "permalink");
    isModal && !isBottomSheet && !isPermalink
  }

  /** Everything the shield reads and writes, as one value. */
  datatype Snapshot = Snapshot(superview: map<View, View>, subviews: map<View, seq<View>>,
                               superlayer: map<Layer, Layer>, layerName: map<Layer, string>,
                               secureField: map<View, View>, originalSuperlayer: map<View, Layer>,
                               protectedView: map<ViewController, View>)

  /** Steps 1 to 4 of `setScreenCaptureProtection` on `v` once the field's
      host is chosen: the new field `f` is recorded for `v`, and so is `v`'s
      superlayer when it has one; `f` goes in at index 0 of `host`'s
      subviews (behind its siblings); `f`'s layer takes `v`'s layer's parent
      (or sits under `host`'s layer), and `v`'s layer moves under the field
      layer's sublayer `content` when there is one. */
  predicate ProtectEffect(s: Snapshot, t: Snapshot, v: View, host: View, fieldHasSublayer: bool) {
    && v in t.secureField
    && var f := t.secureField[v];
       var up := if v.layer in s.superlayer then s.superlayer[v.layer] else host.layer;
       && t.secureField == s.secureField[v := f]
       && t.originalSuperlayer ==
            (if v.layer in s.superlayer then s.originalSuperlayer[v := s.superlayer[v.layer]]
             else s.originalSuperlayer)
       && t.superview == s.superview[f := host]
       && t.subviews == s.subviews[host := [f] + SubviewsOf(s.subviews, host)]
       && t.layerName == s.layerName[v.layer := OriginalLayerName][f.layer := SecureFieldLayerName]
       && (!fieldHasSublayer ==> t.superlayer == s.superlayer[f.layer := up])
       && (fieldHasSublayer ==>
             && v.layer in t.superlayer
             && var content := t.superlayer[v.layer];
                t.superlayer == s.superlayer[content := f.layer][f.layer := up][v.layer := content])
       && t.protectedView == s.protectedView
  }

  /** `setScreenCaptureProtection(isModal)` on `v`: a view without a
      superview, or one that already has a secure field, is left as it is;
      otherwise the field goes into the superview (see `CoversSuperview`) or
      into `v` itself. */
  predicate SetEffect(s: Snapshot, t: Snapshot, v: View, isModal: bool, fieldHasSublayer: bool) {
    if v !in s.superview || v in s.secureField then t == s
    else ProtectEffect(s, t, v, if CoversSuperview(v, isModal) then s.superview[v] else v, fieldHasSublayer)
  }

  /** `removeScreenCaptureProtection()` on `v`. A view without a secure field
      is left as it is. Otherwise both records are cleared, and when `v`'s
      layer no longer sits under the recorded original superlayer, the
      layer goes back under it and the field `f` leaves its superview
      (taking its layer along). */
  predicate RemoveEffect(s: Snapshot, t: Snapshot, v: View) {
    if v !in s.secureField then t == s
    else
      && t.secureField == s.secureField - {v}
      && t.originalSuperlayer == s.originalSuperlayer - {v}
      && t.layerName == s.layerName && t.protectedView == s.protectedView
      && var f := s.secureField[v];
         if Displaced(s.superlayer, s.originalSuperlayer, v) then
           var orig := s.originalSuperlayer[v];
           && t.superlayer == (if f in s.superview then s.superlayer - {v.layer} - {f.layer}
                               else s.superlayer - {v.layer})[v.layer := orig]
           && t.superview == s.superview - {f}
           && (f in s.superview ==>
                 t.subviews == s.subviews[s.superview[f] := Without(SubviewsOf(s.subviews, s.superview[f]), f)])
           && (f !in s.superview ==> t.subviews == s.subviews)
         else
           t.superview == s.superview && t.subviews == s.subviews && t.superlayer == s.superlayer
  }

  class ViewHierarchy {
    /** `view.superview` */
    var superview: map<View, View>
    /** `view.subviews`, back to front */
    var subviews: map<View, seq<View>>
    /** `layer.superlayer` */
    var superlayer: map<Layer, Layer>
    /** `layer.name` */
    var layerName: map<Layer, string>
    /** The secure text field recorded under `secureTextFieldKey`. */
    var secureField: map<View, View>
    /** The layer recorded under `originalSuperlayerKey`. */
    var originalSuperlayer: map<View, Layer>
    /** The view a controller recorded under `protectedViewKey`. */
    var protectedView: map<ViewController, View>

    constructor (superview: map<View, View>, subviews: map<View, seq<View>>, superlayer: map<Layer, Layer>)
      ensures this.superview == superview && this.subviews == subviews && this.superlayer == superlayer
      ensures layerName == map[] && secureField == map[] && originalSuperlayer == map[] && protectedView == map[]
    {
      this.superview := superview;
      this.subviews := subviews;
      this.superlayer := superlayer;
      layerName := map[];
      secureField := map[];
      originalSuperlayer := map[];
      protectedView := map[];
    }

    function State(): Snapshot
      reads this
    {
      Snapshot(superview, subviews, superlayer, layerName, secureField, originalSuperlayer, protectedView)
    }

    /** `host.insertSubview(view, at: 0)` for a view without a superview:
        the view goes to index 0 of the host's subviews, behind the others,
        and its layer under the host's layer. */
    method InsertSubviewAtBack(host: View, view: View)
      requires view !in superview
      modifies this
      ensures superview == old(superview)[view := host]
      ensures subviews == old(subviews)[host := [view] + SubviewsOf(old(subviews), host)]
      ensures superlayer == old(superlayer)[view.layer := host.layer]
      ensures layerName == old(layerName) && secureField == old(secureField)
      ensures originalSuperlayer == old(originalSuperlayer) && protectedView == old(protectedView)
    {
      superview := superview[view := host];
      subviews := subviews[host := [view] + SubviewsOf(subviews, host)];
      superlayer := superlayer[view.layer := host.layer];
    }

    /** `view.removeFromSuperview()`: the view leaves its superview's
        subviews and its layer leaves its superlayer; nothing happens to a
        view without a superview. */
    method RemoveFromSuperview(view: View)
      modifies this
      ensures view !in old(superview) ==> superview == old(superview) && subviews == old(subviews) && superlayer == old(superlayer)
      ensures view in old(superview) ==>
                var sv := old(superview)[view];
                && superview == old(superview) - {view}
                && subviews == old(subviews)[sv := Without(SubviewsOf(old(subviews), sv), view)]
                && superlayer == old(superlayer) - {view.layer}
      ensures layerName == old(layerName) && secureField == old(secureField)
      ensures originalSuperlayer == old(originalSuperlayer) && protectedView == old(protectedView)
    {
      if view in superview {
        var sv := superview[view];
        subviews := subviews[sv := Without(SubviewsOf(subviews, sv), view)];
        superview := superview - {view};
        superlayer := superlayer - {view.layer};
      }
    }

    /** `setScreenCaptureProtection(isModal)` on `v`, as `SetEffect` states;
        the field, its layer and the sublayer `v`'s layer moves under are
        new objects. */
    method SetScreenCaptureProtection(v: View, isModal: bool, fieldHasSublayer: bool)
      modifies this
      ensures SetEffect(old(State()), State(), v, isModal, fieldHasSublayer)
      ensures v in old(superview) && v !in old(secureField) ==>
                && v in secureField && fresh(secureField[v]) && fresh(secureField[v].layer)
                && (fieldHasSublayer ==> v.layer in superlayer && fresh(superlayer[v.layer]))
    {
      if v !in superview {
        return;
      }
      if v in secureField {
        return;  // already protected
      }
      var host := if CoversSuperview(v, isModal) then superview[v] else v;
      Protect(v, host, fieldHasSublayer);
    }

    /** The work of `setScreenCaptureProtection` once the host of the secure
        field is chosen: create the field, remember the original superlayer,
        insert the field at index 0 of `host`'s subviews and re-parent the
        layers. */
    method Protect(v: View, host: View, fieldHasSublayer: bool)
      requires v in superview && v !in secureField
      modifies this
      ensures ProtectEffect(old(State()), State(), v, host, fieldHasSublayer)
      ensures v in secureField && fresh(secureField[v]) && fresh(secureField[v].layer)
      ensures fieldHasSublayer ==> v.layer in superlayer && fresh(superlayer[v.layer])
    {
      ghost var layers := superlayer;

      // Step 1: the secure text field
      layerName := layerName[v.layer := OriginalLayerName];
      var field, content := NewSecureField(fieldHasSublayer);

      // Step 2: remember the original superlayer
      if v.layer in superlayer {
        originalSuperlayer := originalSuperlayer[v := superlayer[v.layer]];
      }

      // Step 3: insert the field and record it
      ghost var up := if v.layer in layers then layers[v.layer] else host.layer;
      ghost var created := superlayer;
      InsertSubviewAtBack(host, field);
      secureField := secureField[v := field];
      UpdateOverwrites(created, field.layer, host.layer, up);

      // Step 4: re-parent the layers
      ReparentLayers(v, field, content);
    }

    /** A new `UITextField` whose layer carries the secure-field name; when
        the platform gives that layer a sublayer, `content` is it. */
    method NewSecureField(hasSublayer: bool) returns (field: View, content: Option<Layer>)
      modifies this
      ensures fresh(field) && fresh(field.layer)
      ensures content.Some? <==> hasSublayer
      ensures content.Some? ==> fresh(content.value) && content.value != field.layer
      ensures layerName == old(layerName)[field.layer := SecureFieldLayerName]
      ensures superlayer == (if content.Some? then old(superlayer)[content.value := field.layer] else old(superlayer))
      ensures superview == old(superview) && subviews == old(subviews)
      ensures secureField == old(secureField) && originalSuperlayer == old(originalSuperlayer)
      ensures protectedView == old(protectedView)
    {
      field := new View(None, "UITextField");
      content := None;
      if hasSublayer {
        var l := new Layer();
        content := Some(l);
        superlayer := superlayer[l := field.layer];
      }
      layerName := layerName[field.layer := SecureFieldLayerName];
    }

    /** The field's layer takes the place of `v`'s layer, which moves under
        `content` when there is one. */
    method ReparentLayers(v: View, field: View, content: Option<Layer>)
      requires content.Some? ==> content.value != v.layer
      modifies this
      ensures superlayer ==
                var s := if v.layer in old(superlayer) then old(superlayer)[field.layer := old(superlayer)[v.layer]] else old(superlayer);
                if content.Some? then s[v.layer := content.value] else s
      ensures superview == old(superview) && subviews == old(subviews) && layerName == old(layerName)
      ensures secureField == old(secureField) && originalSuperlayer == old(originalSuperlayer)
      ensures protectedView == old(protectedView)
    {
      if v.layer in superlayer {
        superlayer := superlayer[field.layer := superlayer[v.layer]];
      }
      if content.Some? {
        superlayer := superlayer[v.layer := content.value];
      }
    }

    /** `removeScreenCaptureProtection()` on `v`, as `RemoveEffect` states. */
    method RemoveScreenCaptureProtection(v: View)
      modifies this
      ensures RemoveEffect(old(State()), State(), v)
    {
      if v !in secureField {
        return;  // not protected
      }
      var field := secureField[v];

      // Step 1: restore the original superlayer. The temporary layer the
      // source adds to and removes from it again leaves no trace.
      if v in originalSuperlayer {
        var orig := originalSuperlayer[v];
        if !(v.layer in superlayer && superlayer[v.layer] == orig) {
          superlayer := superlayer - {v.layer};
          RemoveFromSuperview(field);
          superlayer := superlayer[v.layer := orig];
        }
      }

      // Step 2: clear the records
      secureField := secureField - {v};
      originalSuperlayer := originalSuperlayer - {v};
    }
  }

  /** Putting a view that is not among `host`'s subviews at index 0 of them
      and then taking it out again leaves every view's subviews as they were. */
  lemma InsertThenRemove(m: map<View, seq<View>>, host: View, f: View)
    requires f !in SubviewsOf(m, host)
    ensures var m1 := m[host := [f] + SubviewsOf(m, host)];
            forall w :: SubviewsOf(m1[host := Without(SubviewsOf(m1, host), f)], w) == SubviewsOf(m, w)
  {
    var m1 := m[host := [f] + SubviewsOf(m, host)];
    assert ([f] + SubviewsOf(m, host))[1..] == SubviewsOf(m, host);
    assert Without(SubviewsOf(m1, host), f) == SubviewsOf(m, host);
  }

  /** Moving layer `vl` under a new layer `content` whose parent is the new
      layer `fl`, which takes `vl`'s place, and then putting `vl` back and
      dropping `fl` leaves every earlier layer's parent as it was; only
      `content` is left over. */
  lemma LayersRestored(s0: map<Layer, Layer>, vl: Layer, fl: Layer, content: Layer)
    requires vl in s0 && fl !in s0 && content !in s0
    ensures var s2 := (s0[content := fl][fl := s0[vl]][vl := content] - {vl} - {fl})[vl := s0[vl]];
            && (forall l | l in s0 :: l in s2 && s2[l] == s0[l])
            && (forall l | l in s2 && l !in s0 :: l == content)
  {
  }

  /** The view's layer does not sit under its recorded original superlayer. */
  predicate Displaced(superlayer: map<Layer, Layer>, originalSuperlayer: map<View, Layer>, v: View) {
    v in originalSuperlayer && !(v.layer in superlayer && superlayer[v.layer] == originalSuperlayer[v])
  }

  /** Protecting a view that has a superview and a superlayer and then
      unprotecting it: when the field layer had a sublayer to move the view's
      layer under, every view's parent and subviews and every existing
      layer's parent are as before and both records are gone; otherwise the
      view's layer never moved and the secure field stays in the hierarchy. */
  method ProtectThenUnprotect(h: ViewHierarchy, v: View, isModal: bool, fieldHasSublayer: bool)
    requires v in h.superview && v !in h.secureField && v.layer in h.superlayer
    modifies h
    ensures v !in h.secureField && v !in h.originalSuperlayer
    ensures fieldHasSublayer ==>
              && h.superview == old(h.superview)
              && (forall w :: SubviewsOf(h.subviews, w) == SubviewsOf(old(h.subviews), w))
              && (forall l | l in old(h.superlayer) :: l in h.superlayer && h.superlayer[l] == old(h.superlayer)[l])
              && (forall l | l in h.superlayer && l !in old(h.superlayer) :: fresh(l))
    ensures !fieldHasSublayer ==>
              && v.layer in h.superlayer && h.superlayer[v.layer] == old(h.superlayer)[v.layer]
              && exists f :: f in h.superview && f !in old(h.superview)
  {
    h.SetScreenCaptureProtection(v, isModal, fieldHasSublayer);
    var f := h.secureField[v];
    var orig := h.originalSuperlayer[v];
    var host := h.superview[f];
    assert orig == old(h.superlayer)[v.layer];
    ghost var content := h.superlayer[v.layer];
    h.RemoveScreenCaptureProtection(v);
    if fieldHasSublayer {
      InsertThenRemove(old(h.subviews), host, f);
      LayersRestored(old(h.superlayer), v.layer, f.layer, content);
    } else {
      assert f in h.superview;
    }
  }
}
