/**
 * The Vaadin 8 editability rules (v8 BasicUtils.kt): `checkEditableByUser`,
 * `isEffectivelyEnabled` and the guarded `_value` setter.
 */
module BasicUtilsV8 {
  import opened Wrappers
  import opened LocatorV8
  import BasicUtils

  /** `isEffectivelyEnabled()`: false when disabled, true at a parentless component, else the parent's. */
  predicate IsEffectivelyEnabled(c: Component8, ancestors: seq<Component8>)
    decreases |ancestors|
  {
    if !c.enabled then false
    else if |ancestors| == 0 then true
    else IsEffectivelyEnabled(ancestors[0], ancestors[1..])
  }

  /** A component is effectively enabled iff it and every ancestor are enabled. */
  lemma {:induction false} IsEffectivelyEnabledIff(c: Component8, ancestors: seq<Component8>)
    ensures IsEffectivelyEnabled(c, ancestors)
        <==> c.enabled && forall i :: 0 <= i < |ancestors| ==> ancestors[i].enabled
    decreases |ancestors|
  {
    if |ancestors| > 0 {
      IsEffectivelyEnabledIff(ancestors[0], ancestors[1..]);
      assert forall i :: 1 <= i < |ancestors| ==> ancestors[i] == ancestors[1..][i - 1];
    }
  }

  /**
   * `checkEditableByUser()`, in its order: effectively visible, enabled,
   * effectively enabled, and not read-only for a HasValue.
   */
  function CheckEditableByUser(c: Component8, ancestors: seq<Component8>): Outcome<BasicUtils.EditFailure>
  {
    if !EffectivelyVisible(c, ancestors) then Fail(BasicUtils.NotEffectivelyVisible)
    else if !c.enabled then Fail(BasicUtils.NotEnabled)
    else if !IsEffectivelyEnabled(c, ancestors) then Fail(BasicUtils.NestedInDisabled)
    else if c.hasValue && c.readOnly then Fail(BasicUtils.ReadOnly)
    else Pass
  }

  /**
   * The v8 check passes iff the component and its ancestors are visible and
   * enabled and it is not read-only. Unlike Vaadin 10, a visible component
   * whose own flag is off reports "not enabled" whatever its ancestors;
   * "nested in a disabled component" means it is enabled but an ancestor is not.
   */
  lemma CheckEditableSpec(c: Component8, ancestors: seq<Component8>)
    ensures var visible := c.visible && forall i :: 0 <= i < |ancestors| ==> ancestors[i].visible;
      var ancestorsEnabled := forall i :: 0 <= i < |ancestors| ==> ancestors[i].enabled;
      && (CheckEditableByUser(c, ancestors) == Pass
          <==> visible && c.enabled && ancestorsEnabled && !(c.hasValue && c.readOnly))
      && (CheckEditableByUser(c, ancestors) == Fail(BasicUtils.NotEffectivelyVisible) <==> !visible)
      && (CheckEditableByUser(c, ancestors) == Fail(BasicUtils.NotEnabled) <==> visible && !c.enabled)
      && (CheckEditableByUser(c, ancestors) == Fail(BasicUtils.NestedInDisabled)
          <==> visible && c.enabled && !ancestorsEnabled)
  {
    EffectivelyVisibleIff(c, ancestors);
    IsEffectivelyEnabledIff(c, ancestors);
  }

  /** A HasValue component whose value the `_value` property writes. */
  class ValueField {
    var component: Component8
    const ancestors: seq<Component8>

    constructor(component: Component8, ancestors: seq<Component8>)
      ensures this.component == component && this.ancestors == ancestors
    {
      this.component := component;
      this.ancestors := ancestors;
    }

    /**
     * The `_value` setter: runs the editability check and assigns the value
     * only when it passes; on failure the component is left as it was.
     */
    method SetValue(v: Option<string>) returns (r: Outcome<BasicUtils.EditFailure>)
      modifies this
      ensures r == CheckEditableByUser(old(component), ancestors)
      ensures r.Pass? ==> component == old(component).(value := v)
      ensures r.Fail? ==> component == old(component)
    {
      r := CheckEditableByUser(component, ancestors);
      if r.Pass? {
        component := component.(value := v);
      }
    }
  }
}
