/**
 * Selecting several items of a `CheckboxGroup` by their labels
 * (CheckboxGroup.kt). The data provider is the list of all its items; the
 * item label generator is `labelOf`.
 */
module CheckboxGroups {
  import opened Wrappers
  import BasicUtils
  import opened HasValues
  import ComboBoxes

  /** Why a multi-selection is refused. */
  datatype Failure<T> =
    | MultipleItemsFound(labelText: string, items: seq<T>)   // "Multiple items found with label '…': …"
    | NoItemFound(missing: set<string>)                       // "No item found with label(s) '…'"
    | NotEditable(reason: BasicUtils.EditFailure)

  /** The keys of `groupBy { label }`, in order of first appearance. */
  function LabelsInOrder<T>(items: seq<T>, labelOf: T -> string): (r: seq<string>)
    ensures forall i :: 0 <= i < |items| ==> labelOf(items[i]) in r
    ensures forall l :: l in r ==> exists i :: 0 <= i < |items| && labelOf(items[i]) == l
    ensures forall i, j :: 0 <= i < j < |r| ==> r[i] != r[j]
    ensures forall k, l :: 0 <= k < l < |r| ==> FirstBefore(items, labelOf, r[k], r[l])
    decreases |items|
  {
    if |items| == 0 then []
    else
      var prefix := items[..|items| - 1];
      var rest := LabelsInOrder(prefix, labelOf);
      var l := labelOf(items[|items| - 1]);
      assert forall i :: 0 <= i < |items| - 1 ==> prefix[i] == items[i];
      forall k, m | 0 <= k < m < |rest|
        ensures FirstBefore(items, labelOf, rest[k], rest[m])
      {
        FirstBeforeExtends(prefix, items, labelOf, rest[k], rest[m]);
      }
      if l in rest then rest
      else
        forall k | 0 <= k < |rest|
          ensures FirstBefore(items, labelOf, rest[k], l)
        {
          assert rest[k] in rest;
          var i :| 0 <= i < |prefix| && labelOf(prefix[i]) == rest[k];
          assert labelOf(items[i]) == rest[k];
          assert forall j :: 0 <= j <= i ==> labelOf(prefix[j]) in rest;
        }
        rest + [l]
  }

  /**
   * Label `a` occurs in `items` before any occurrence of label `b`: the order
   * in which `groupBy` meets its keys.
   */
  ghost predicate FirstBefore<T>(items: seq<T>, labelOf: T -> string, a: string, b: string)
  {
    exists i :: 0 <= i < |items| && labelOf(items[i]) == a && forall j :: 0 <= j <= i ==> labelOf(items[j]) != b
  }

  /** What comes first in a prefix still comes first in the whole list. */
  lemma FirstBeforeExtends<T>(prefix: seq<T>, items: seq<T>, labelOf: T -> string, a: string, b: string)
    requires prefix <= items && FirstBefore(prefix, labelOf, a, b)
    ensures FirstBefore(items, labelOf, a, b)
  {
    var i :| 0 <= i < |prefix| && labelOf(prefix[i]) == a && forall j :: 0 <= j <= i ==> labelOf(prefix[j]) != b;
    assert labelOf(items[i]) == a;
    assert forall j :: 0 <= j <= i ==> items[j] == prefix[j];
  }

  /** The group of one label: the items carrying it, in order. */
  function Group<T(!new)>(items: seq<T>, labelText: string, labelOf: T -> string): seq<T>
  {
    ComboBoxes.WithLabel(items, labelText, labelOf)
  }

  /**
   * `itemsWithLabels.entries.firstOrNull { it.value.size > 1 }`: the first
   * requested label, in group order, with more than one item.
   */
  function FirstAmbiguous<T(!new)>(order: seq<string>, labels: set<string>, items: seq<T>, labelOf: T -> string): (r: Option<string>)
    ensures r.None? <==> forall i :: 0 <= i < |order| && order[i] in labels ==> |Group(items, order[i], labelOf)| <= 1
    ensures r.Some? ==> r.value in order && r.value in labels && |Group(items, r.value, labelOf)| > 1
    ensures r.Some? ==> exists k :: 0 <= k < |order| && order[k] == r.value
                          && forall j :: 0 <= j < k ==> !(order[j] in labels && |Group(items, order[j], labelOf)| > 1)
  {
    if |order| == 0 then None
    else if order[0] in labels && |Group(items, order[0], labelOf)| > 1 then Some(order[0])
    else
      var r := FirstAmbiguous(order[1..], labels, items, labelOf);
      assert forall i :: 1 <= i < |order| ==> order[i] == order[1..][i - 1];
      r
  }

  /** The value a successful selection assigns: every item carrying a requested label. */
  function Selected<T(==,!new)>(items: seq<T>, labels: set<string>, labelOf: T -> string): set<T>
  {
    set i | 0 <= i < |items| && labelOf(items[i]) in labels :: items[i]
  }

  /**
   * `selectByLabel(labels, itemLabelGenerator)`: a requested label with
   * several items fails first, then requested labels without items; on
   * success the value becomes the set of items carrying a requested label,
   * assigned through the `_value` setter.
   */
  method SelectByLabel<T(==,!new)>(field: Field<set<T>>, labels: set<string>, all: seq<T>, labelOf: T -> string)
    returns (r: Outcome<Failure<T>>)
    modifies field
    ensures var present := set i | 0 <= i < |all| :: labelOf(all[i]);
      var ambiguous := FirstAmbiguous(LabelsInOrder(all, labelOf), labels, all, labelOf);
      && (ambiguous.Some? ==> r == Fail(MultipleItemsFound(ambiguous.value, Group(all, ambiguous.value, labelOf))))
      && (ambiguous.None? && !(labels <= present) ==> r == Fail(NoItemFound(labels - present)))
      && (ambiguous.None? && labels <= present && field.EditCheck().Fail? ==> r == Fail(NotEditable(field.EditCheck().error)))
      && (r.Pass? <==> ambiguous.None? && labels <= present && field.EditCheck().Pass?)
    ensures r.Pass? ==> field.value == Selected(all, labels, labelOf)
    ensures r.Pass? ==> forall l :: l in labels ==> |Group(all, l, labelOf)| == 1
    ensures r.Fail? ==> field.value == old(field.value)
  {
    var order := LabelsInOrder(all, labelOf);
    var present := set i | 0 <= i < |all| :: labelOf(all[i]);
    var ambiguous := FirstAmbiguous(order, labels, all, labelOf);
    if ambiguous.Some? {
      return Fail(MultipleItemsFound(ambiguous.value, Group(all, ambiguous.value, labelOf)));
    }
    if !(labels <= present) {
      return Fail(NoItemFound(labels - present));
    }
    var outcome := field.SetValue(Selected(all, labels, labelOf));
    if outcome.Fail? {
      return Fail(NotEditable(outcome.error));
    }
    forall l | l in labels
      ensures |Group(all, l, labelOf)| == 1
    {
      var i :| 0 <= i < |all| && labelOf(all[i]) == l;
      assert all[i] in Group(all, l, labelOf);
      var k :| 0 <= k < |order| && order[k] == l;
    }
    r := Pass;
  }
}
