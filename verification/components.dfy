/**
 * The component tree the query engine searches. A component is an immutable
 * value with its children; its parent chain is carried beside it as the list
 * of ancestors, nearest first (`Located`). Visibility and enablement follow
 * the Vaadin 10+ rules of BasicUtils.kt.
 */
module Components {
  import opened Wrappers
  import Text

  /** What the query engine reads from one UI component. */
  datatype Component = Component(
    types: set<string>,        // names of the classes and interfaces the component is an instance of
    id: Option<string>,        // `id_`
    caption: string,           // `caption`
    placeholder: Option<string>,  // `placeholder`, absent when the component has none
    text: string,              // `element.text`
    value: Option<string>,     // `HasValue.getValue()`; None when not a HasValue or the value is null
    hasStyle: bool,            // implements HasStyle
    classNames: set<string>,   // HasStyle.classNames
    themes: set<string>,       // element.themeList
    isText: bool,              // a `Text` node
    visible: bool,             // own `isVisible` flag
    hasEnabled: bool,          // implements HasEnabled
    enabled: bool,             // own enabled flag (HasEnabled only)
    hasValue: bool,            // implements HasValue
    readOnly: bool,            // HasValue.isReadOnly
    children: seq<Component>)

  /** A component together with its ancestors, parent first. */
  datatype Located = Located(node: Component, ancestors: seq<Component>)

  /** The located children of a located component. */
  function ChildrenOf(l: Located): (r: seq<Located>)
    ensures |r| == |l.node.children|
    ensures forall i :: 0 <= i < |r| ==> r[i] == Located(l.node.children[i], [l.node] + l.ancestors)
  {
    seq(|l.node.children|, i requires 0 <= i < |l.node.children| => Located(l.node.children[i], [l.node] + l.ancestors))
  }

  /**
   * The depth-first pre-order walk: the component first, then the walk of
   * each child in order (`_walkAll`).
   */
  function Walk(n: Component, ancestors: seq<Component>): (r: seq<Located>)
    ensures |r| >= 1 && r[0] == Located(n, ancestors)
    decreases n, 1
  {
    [Located(n, ancestors)] + WalkForest(n.children, [n] + ancestors)
  }

  /** The walks of sibling subtrees, concatenated in order. */
  function WalkForest(cs: seq<Component>, ancestors: seq<Component>): seq<Located>
    decreases cs, 0
  {
    if |cs| == 0 then [] else Walk(cs[0], ancestors) + WalkForest(cs[1..], ancestors)
  }

  /** The walks of a list of located components, concatenated in order. */
  function WalkAll(q: seq<Located>): seq<Located>
  {
    if |q| == 0 then [] else Walk(q[0].node, q[0].ancestors) + WalkAll(q[1..])
  }

  /** Walking a located forest is walking each child in turn. */
  lemma {:induction false} WalkForestIsWalkAll(cs: seq<Component>, parent: Component, ancestors: seq<Component>)
    requires |cs| <= |parent.children| && cs == parent.children[|parent.children| - |cs|..]
    ensures WalkForest(cs, [parent] + ancestors)
         == WalkAll(ChildrenOf(Located(parent, ancestors))[|parent.children| - |cs|..])
    decreases |cs|
  {
    var kids := ChildrenOf(Located(parent, ancestors));
    var k := |parent.children| - |cs|;
    if |cs| > 0 {
      assert kids[k..][0] == Located(cs[0], [parent] + ancestors);
      assert kids[k..][1..] == kids[k + 1..];
      WalkForestIsWalkAll(cs[1..], parent, ancestors);
    }
  }

  /** A located component's walk: itself, then the walk of its located children. */
  lemma WalkUnfold(l: Located)
    ensures Walk(l.node, l.ancestors) == [l] + WalkAll(ChildrenOf(l))
  {
    WalkForestIsWalkAll(l.node.children, l.node, l.ancestors);
  }

  lemma {:induction false} WalkAllAppend(a: seq<Located>, b: seq<Located>)
    ensures WalkAll(a + b) == WalkAll(a) + WalkAll(b)
  {
    if |a| == 0 {
      assert a + b == b;
    } else {
      assert (a + b)[0] == a[0];
      assert (a + b)[1..] == a[1..] + b;
      WalkAllAppend(a[1..], b);
    }
  }

  /** `_isVisible`: a Text node is visible iff its text is not blank; others use their flag. */
  predicate IsVisible(c: Component)
  {
    if c.isText then !Text.IsBlank(c.text) else c.visible
  }

  /** `isEffectivelyVisible()`: visible, and the parent (if any) effectively visible. */
  predicate EffectivelyVisible(n: Component, ancestors: seq<Component>)
    decreases |ancestors|
  {
    IsVisible(n) && (|ancestors| == 0 || EffectivelyVisible(ancestors[0], ancestors[1..]))
  }

  /** A component is effectively visible iff it and every ancestor are visible. */
  lemma {:induction false} EffectivelyVisibleIff(n: Component, ancestors: seq<Component>)
    ensures EffectivelyVisible(n, ancestors)
        <==> IsVisible(n) && forall i :: 0 <= i < |ancestors| ==> IsVisible(ancestors[i])
    decreases |ancestors|
  {
    if |ancestors| > 0 {
      EffectivelyVisibleIff(ancestors[0], ancestors[1..]);
      assert forall i :: 1 <= i < |ancestors| ==> ancestors[i] == ancestors[1..][i - 1];
    }
  }

  /** The enabled state of the parent, or true for a parentless component. */
  predicate ParentEnabled(ancestors: seq<Component>)
    decreases |ancestors|, 0
  {
    |ancestors| == 0 || IsEnabled(ancestors[0], ancestors[1..])
  }

  /**
   * `Component.isEnabled`: a HasEnabled component reports the framework's
   * enabled state, which is its own flag implicitly cleared by a disabled
   * ancestor; any other component takes its parent's state, true at the root.
   */
  predicate IsEnabled(n: Component, ancestors: seq<Component>)
    decreases |ancestors|, 1
  {
    if n.hasEnabled then n.enabled && ParentEnabled(ancestors) else ParentEnabled(ancestors)
  }

  /** Whether a component's own flag disables it. */
  predicate DisabledItself(c: Component)
  {
    c.hasEnabled && !c.enabled
  }

  /** A component is enabled iff neither it nor any ancestor is disabled. */
  lemma {:induction false} IsEnabledIff(n: Component, ancestors: seq<Component>)
    ensures IsEnabled(n, ancestors)
        <==> !DisabledItself(n) && forall i :: 0 <= i < |ancestors| ==> !DisabledItself(ancestors[i])
    decreases |ancestors|
  {
    if |ancestors| > 0 {
      IsEnabledIff(ancestors[0], ancestors[1..]);
      assert forall i :: 1 <= i < |ancestors| ==> ancestors[i] == ancestors[1..][i - 1];
    }
  }
}
