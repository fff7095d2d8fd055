/**
 * Selecting by label in a `ComboBox` or a `Select` (ComboBox.kt), and the
 * custom-value event. The data provider is the list of all its items; the
 * filter a `ComboBox` applies to the user's input is the parameter
 * `accepts`; the item label generator is `labelOf`.
 */
module ComboBoxes {
  import opened Wrappers
  import BasicUtils
  import opened HasValues
  import Seqs

  /** Why a selection is refused. */
  datatype Failure<T> =
    | NotEditable(reason: BasicUtils.EditFailure)
    | NoItemFound(labelText: string)                            // "No item found with label '…'"
    | MultipleItemsFound(labelText: string, items: seq<T>)      // "Multiple items found with label '…': …"
    | CustomValuesNotAllowed                                // "… doesn't allow custom values"

  /**
   * `filter { itemLabelGenerator.apply(it) == label }`: the items carrying the
   * label, in their order in the list, each as often as it occurs there.
   */
  function WithLabel<T(!new)>(items: seq<T>, labelText: string, labelOf: T -> string): (r: seq<T>)
    ensures forall i :: 0 <= i < |r| ==> r[i] in items && labelOf(r[i]) == labelText
    ensures forall i :: 0 <= i < |items| && labelOf(items[i]) == labelText ==> items[i] in r
    ensures exists idx :: Seqs.Picks(items, idx, r)
                          && forall i :: 0 <= i < |items| ==> (labelOf(items[i]) == labelText <==> i in idx)
  {
    Seqs.FilterInOrder(items, x => labelOf(x) == labelText);
    Seqs.Filter(items, x => labelOf(x) == labelText)
  }

  /** The items a `ComboBox` suggests: all of them when bypassing the filter, else those the filter accepts. */
  function Suggestions<T(!new)>(all: seq<T>, labelText: string, bypass: bool, accepts: (T, string) -> bool): seq<T>
  {
    if bypass then all else Seqs.Filter(all, x => accepts(x, labelText))
  }

  /** An item the user could pick by `label`: suggested, and labelled exactly so. */
  lemma SuggestionsWithLabel<T(!new)>(all: seq<T>, labelText: string, bypass: bool, accepts: (T, string) -> bool, labelOf: T -> string)
    ensures var matching := WithLabel(Suggestions(all, labelText, bypass, accepts), labelText, labelOf);
      forall i :: 0 <= i < |all| ==>
        (all[i] in matching <==> labelOf(all[i]) == labelText && (bypass || accepts(all[i], labelText)))
  {
  }

  /**
   * `ComboBox.selectByLabel(label, bypassSetUserInput)`: the editability
   * check comes first; then exactly one suggested item with the label is
   * required, and it becomes the value.
   */
  method ComboSelectByLabel<T(!new)>(field: Field<Option<T>>, labelText: string, bypass: bool, all: seq<T>,
                               accepts: (T, string) -> bool, labelOf: T -> string)
    returns (r: Outcome<Failure<T>>)
    modifies field
    ensures var matching := WithLabel(Suggestions(all, labelText, bypass, accepts), labelText, labelOf);
      && (field.EditCheck().Fail? ==> r == Fail(NotEditable(field.EditCheck().error)))
      && (field.EditCheck().Pass? && |matching| == 0 ==> r == Fail(NoItemFound(labelText)))
      && (field.EditCheck().Pass? && |matching| > 1 ==> r == Fail(MultipleItemsFound(labelText, matching)))
      && (r.Pass? <==> field.EditCheck().Pass? && |matching| == 1)
      && (r.Pass? ==> field.value == Some(matching[0]))
    ensures r.Pass? ==> field.value.Some? && labelOf(field.value.value) == labelText && field.value.value in all
    ensures r.Fail? ==> field.value == old(field.value)
  {
    var check := field.EditCheck();
    if check.Fail? {
      return Fail(NotEditable(check.error));
    }
    var suggestions := Suggestions(all, labelText, bypass, accepts);
    var items := WithLabel(suggestions, labelText, labelOf);
    if |items| == 0 {
      return Fail(NoItemFound(labelText));
    } else if |items| > 1 {
      return Fail(MultipleItemsFound(labelText, items));
    }
    assert items[0] in items;
    var outcome := field.SetValue(Some(items[0]));
    r := Pass;
  }

  /**
   * `HasValue.selectByLabel(label, dataProvider, itemLabelGenerator)`, used
   * by `Select`: no item or several items fail first; the single item is
   * then assigned through the `_value` setter, which checks editability.
   */
  method SelectByLabel<T(!new)>(field: Field<Option<T>>, labelText: string, all: seq<T>, labelOf: T -> string)
    returns (r: Outcome<Failure<T>>)
    modifies field
    ensures var matching := WithLabel(all, labelText, labelOf);
      && (|matching| == 0 ==> r == Fail(NoItemFound(labelText)))
      && (|matching| > 1 ==> r == Fail(MultipleItemsFound(labelText, matching)))
      && (|matching| == 1 && field.EditCheck().Fail? ==> r == Fail(NotEditable(field.EditCheck().error)))
      && (r.Pass? <==> |matching| == 1 && field.EditCheck().Pass?)
      && (r.Pass? ==> field.value == Some(matching[0]))
    ensures r.Fail? ==> field.value == old(field.value)
  {
    var items := WithLabel(all, labelText, labelOf);
    if |items| == 0 {
      return Fail(NoItemFound(labelText));
    } else if |items| > 1 {
      return Fail(MultipleItemsFound(labelText, items));
    }
    var outcome := field.SetValue(Some(items[0]));
    r := if outcome.Fail? then Fail(NotEditable(outcome.error)) else Pass;
  }

  /**
   * `_fireCustomValueSet(userInput)`: refused unless the field is editable
   * and allows custom values; otherwise the `CustomValueSetEvent` carrying
   * the input is fired (returned here).
   */
  method FireCustomValueSet<T>(field: Field<Option<T>>, allowCustomValue: bool, userInput: string)
    returns (r: Outcome<Failure<T>>, fired: Option<string>)
    ensures field.EditCheck().Fail? ==> r == Fail(NotEditable(field.EditCheck().error))
    ensures field.EditCheck().Pass? && !allowCustomValue ==> r == Fail(CustomValuesNotAllowed)
    ensures r.Pass? <==> field.EditCheck().Pass? && allowCustomValue
    ensures fired.Some? <==> r.Pass?
    ensures fired.Some? ==> fired.value == userInput
  {
    var check := field.EditCheck();
    if check.Fail? {
      return Fail(NotEditable(check.error)), None;
    }
    if !allowCustomValue {
      return Fail(CustomValuesNotAllowed), None;
    }
    return Pass, Some(userInput);
  }
}
