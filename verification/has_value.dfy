/**
 * A Vaadin 10+ `HasValue` field as the selection helpers use it: the
 * `_value` setter (HasValueUtils.kt) refuses a field the user could not
 * edit and otherwise assigns the value.
 */
module HasValues {
  import opened Wrappers
  import Components
  import BasicUtils

  /** A field holding a value of type `V`, with its place in the component tree. */
  class Field<V> {
    var value: V
    const node: Components.Component
    const ancestors: seq<Components.Component>

    constructor(value: V, node: Components.Component, ancestors: seq<Components.Component>)
      ensures this.value == value && this.node == node && this.ancestors == ancestors
    {
      this.value := value;
      this.node := node;
      this.ancestors := ancestors;
    }

    /** `_expectEditableByUser()` for this field. */
    function EditCheck(): Outcome<BasicUtils.EditFailure>
    {
      BasicUtils.CheckEditableByUser(node, ancestors)
    }

    /** The `_value` setter: the editability check, then the assignment. */
    method SetValue(v: V) returns (r: Outcome<BasicUtils.EditFailure>)
      modifies this
      ensures r == EditCheck()
      ensures r.Pass? ==> value == v
      ensures r.Fail? ==> value == old(value)
    {
      r := EditCheck();
      if r.Pass? {
        value := v;
      }
    }
  }
}
