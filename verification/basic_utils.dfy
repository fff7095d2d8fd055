/**
 * The Vaadin 10+ editability rules (BasicUtils.kt): whether a user could
 * edit a component, and the enabled/disabled expectations.
 */
module BasicUtils {
  import opened Wrappers
  import opened Components

  /** Which of `checkEditableByUser`'s checks failed (each an IllegalStateException). */
  datatype EditFailure =
    | NotEffectivelyVisible  // "is not effectively visible - either it is hidden, or its ascendant is hidden"
    | NotEnabled             // "is not enabled"
    | NestedInDisabled       // "is nested in a disabled component"
    | ReadOnly               // "is read-only"

  /**
   * `checkEditableByUser()`: effective visibility first; the "not enabled"
   * check only when the parent is absent or enabled; then the enabled state
   * itself (`isEffectivelyEnabled` is `isEnabled`); then read-only.
   */
  function CheckEditableByUser(n: Component, ancestors: seq<Component>): Outcome<EditFailure>
  {
    if !EffectivelyVisible(n, ancestors) then Fail(NotEffectivelyVisible)
    else if ParentEnabled(ancestors) && !IsEnabled(n, ancestors) then Fail(NotEnabled)
    else if !IsEnabled(n, ancestors) then Fail(NestedInDisabled)
    else if n.hasValue && n.readOnly then Fail(ReadOnly)
    else Pass
  }

  /** Some ancestor disables itself. */
  predicate DisabledAncestor(ancestors: seq<Component>)
  {
    exists i :: 0 <= i < |ancestors| && DisabledItself(ancestors[i])
  }

  /**
   * A component is editable iff it and all its ancestors are visible, none
   * of them is disabled, and it is not a read-only HasValue. Visibility is
   * reported before any enablement problem; "not enabled" is reported only
   * when the whole parent chain is enabled, "nested in a disabled
   * component" whenever an ancestor is disabled.
   */
  lemma CheckEditableSpec(n: Component, ancestors: seq<Component>)
    ensures var visible := IsVisible(n) && forall i :: 0 <= i < |ancestors| ==> IsVisible(ancestors[i]);
      && (CheckEditableByUser(n, ancestors) == Pass
          <==> visible && !DisabledItself(n) && !DisabledAncestor(ancestors) && !(n.hasValue && n.readOnly))
      && (CheckEditableByUser(n, ancestors) == Fail(NotEffectivelyVisible) <==> !visible)
      && (CheckEditableByUser(n, ancestors) == Fail(NotEnabled)
          <==> visible && DisabledItself(n) && !DisabledAncestor(ancestors))
      && (CheckEditableByUser(n, ancestors) == Fail(NestedInDisabled)
          <==> visible && DisabledAncestor(ancestors))
      && (CheckEditableByUser(n, ancestors) == Fail(ReadOnly)
          <==> visible && !DisabledItself(n) && !DisabledAncestor(ancestors) && n.hasValue && n.readOnly)
  {
    EffectivelyVisibleIff(n, ancestors);
    IsEnabledIff(n, ancestors);
    if |ancestors| > 0 {
      IsEnabledIff(ancestors[0], ancestors[1..]);
      assert forall i :: 1 <= i < |ancestors| ==> ancestors[i] == ancestors[1..][i - 1];
      if DisabledAncestor(ancestors) {
        var i :| 0 <= i < |ancestors| && DisabledItself(ancestors[i]);
        if i > 0 {
          assert ancestors[1..][i - 1] == ancestors[i];
        }
      }
    }
  }

  /** `expectNotEditableByUser()`: fails (AssertionError "is editable") iff the component is editable. */
  function ExpectNotEditableByUser(n: Component, ancestors: seq<Component>): Outcome<string>
  {
    match CheckEditableByUser(n, ancestors)
    case Pass => Fail("is editable")
    case Fail(_) => Pass
  }

  /**
   * `expectNotEditableByUser` passes iff something makes the component
   * uneditable: a hidden component or ancestor, a disabled component or
   * ancestor, or read-only.
   */
  lemma ExpectNotEditableSpec(n: Component, ancestors: seq<Component>)
    ensures ExpectNotEditableByUser(n, ancestors) == Pass
      <==> !IsVisible(n) || (exists i :: 0 <= i < |ancestors| && !IsVisible(ancestors[i]))
           || DisabledItself(n) || DisabledAncestor(ancestors) || (n.hasValue && n.readOnly)
  {
    CheckEditableSpec(n, ancestors);
  }

  /** `_expectEnabled()`: fails with "is not enabled" unless the component is enabled. */
  function ExpectEnabled(n: Component, ancestors: seq<Component>): Outcome<string>
  {
    if !IsEnabled(n, ancestors) then Fail("is not enabled") else Pass
  }

  /** `_expectDisabled()`: fails with "is not disabled" when the component is enabled. */
  function ExpectDisabled(n: Component, ancestors: seq<Component>): Outcome<string>
  {
    if IsEnabled(n, ancestors) then Fail("is not disabled") else Pass
  }

  /**
   * Exactly one of `_expectEnabled` and `_expectDisabled` passes; a component
   * inside a disabled ancestor always passes `_expectDisabled`.
   */
  lemma ExpectEnabledDisabledComplementary(n: Component, ancestors: seq<Component>)
    ensures ExpectEnabled(n, ancestors).Pass? != ExpectDisabled(n, ancestors).Pass?
    ensures ExpectEnabled(n, ancestors).Pass? <==> !DisabledItself(n) && !DisabledAncestor(ancestors)
    ensures DisabledAncestor(ancestors) ==> ExpectDisabled(n, ancestors) == Pass
  {
    IsEnabledIff(n, ancestors);
  }
}
