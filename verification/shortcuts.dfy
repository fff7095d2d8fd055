/**
 * The fake key-event JSON a shortcut is fired with (Shortcuts.kt,
 * `MockFilterJsonObject`): it answers the shortcut's filter expressions
 * with true exactly when they are the filter of its own key and modifiers.
 */
module Shortcuts {
  import Text

  /** The suffixes Vaadin appends to a registered filter expression. */
  const STOP_PROPAGATION: string := " && (event.stopPropagation() || true)"
  const PREVENT_DEFAULT: string := " && (event.preventDefault() || true)"

  /**
   * The object's filter: the key filter and the modifier filter that
   * `ShortcutRegistration` generates, joined with " && ".
   */
  function Filter(keyFilter: string, modifierFilter: string): (f: string)
    ensures Text.StartsWith(f, keyFilter)
    ensures |f| == |keyFilter| + 4 + |modifierFilter|
  {
    var f := keyFilter + " && " + modifierFilter;
    assert f[..|keyFilter|] == keyFilter;
    f
  }

  /** `getBoolean(key)`'s answer: a filter verdict, or the ordinary JSON lookup. */
  datatype Answer = FilterVerdict(matches: bool) | Delegated

  /** The key with the stop-propagation suffix, then the prevent-default suffix, removed. */
  function Probe(key: string): string
  {
    Text.RemoveSuffix(Text.RemoveSuffix(key, STOP_PROPAGATION), PREVENT_DEFAULT)
  }

  /**
   * `getBoolean(key)`: keys not starting with "([" are not filters and go
   * to the JSON object; a filter matches iff, stripped of its suffixes, it
   * starts with this object's filter.
   */
  function GetBoolean(filter: string, key: string): (a: Answer)
    ensures a.Delegated? <==> !Text.StartsWith(key, "([")
    ensures a.FilterVerdict? ==> (a.matches <==> Text.StartsWith(Probe(key), filter))
  {
    if !Text.StartsWith(key, "([") then Delegated
    else FilterVerdict(Text.StartsWith(Probe(key), filter))
  }

  /** A prefix of a prefix is a prefix. */
  lemma StartsWithTrans(s: string, t: string, u: string)
    requires Text.StartsWith(s, t) && Text.StartsWith(t, u)
    ensures Text.StartsWith(s, u)
  {
    assert s[..|u|] == t[..|u|];
  }

  /** Removing a suffix that was just appended gives the string back. */
  lemma RemoveAppended(a: string, suffix: string)
    ensures Text.RemoveSuffix(a + suffix, suffix) == a
  {
    assert (a + suffix)[|a + suffix| - |suffix|..] == suffix;
  }

  /** A string ending with the prevent-default suffix does not end with the stop-propagation one. */
  lemma PreventDefaultIsNotStopPropagation(a: string)
    ensures !Text.EndsWith(a + PREVENT_DEFAULT, STOP_PROPAGATION)
  {
    var s := a + PREVENT_DEFAULT;
    assert s[|s| - 12] == PREVENT_DEFAULT[|PREVENT_DEFAULT| - 12] == 't';
    assert STOP_PROPAGATION[|STOP_PROPAGATION| - 12] == 'n';
  }

  /**
   * The registration's own filter expression matches, with or without the
   * prevent-default and stop-propagation suffixes, when the key filter
   * starts with "([" and the filter does not itself end with one of the
   * suffixes, as the generated ones do and do not.
   */
  lemma OwnFilterMatches(keyFilter: string, modifierFilter: string, preventDefault: bool, stopPropagation: bool)
    requires Text.StartsWith(keyFilter, "([")
    requires !Text.EndsWith(Filter(keyFilter, modifierFilter), PREVENT_DEFAULT)
    requires !Text.EndsWith(Filter(keyFilter, modifierFilter), STOP_PROPAGATION)
    ensures var filter := Filter(keyFilter, modifierFilter);
      var key := filter + (if preventDefault then PREVENT_DEFAULT else "") + (if stopPropagation then STOP_PROPAGATION else "");
      GetBoolean(filter, key) == FilterVerdict(true)
  {
    var filter := Filter(keyFilter, modifierFilter);
    var pd := if preventDefault then PREVENT_DEFAULT else "";
    var sp := if stopPropagation then STOP_PROPAGATION else "";
    var key := filter + pd + sp;
    assert key[..|filter|] == filter;
    StartsWithTrans(key, filter, keyFilter);
    StartsWithTrans(key, keyFilter, "([");
    if stopPropagation {
      RemoveAppended(filter + pd, STOP_PROPAGATION);
    } else if preventDefault {
      PreventDefaultIsNotStopPropagation(filter);
      assert key == filter + PREVENT_DEFAULT;
    } else {
      assert key == filter;
    }
    assert Text.RemoveSuffix(key, STOP_PROPAGATION) == filter + pd;
    if preventDefault {
      RemoveAppended(filter, PREVENT_DEFAULT);
    } else {
      assert filter + pd == filter;
    }
    assert Probe(key) == filter;
    assert filter[..|filter|] == filter;
  }
}
