# Karibu-Testing in Dafny

Karibu-Testing runs Vaadin UI tests without a browser and without a servlet
container. A test finds components in the live component tree with a search
specification (`_get`, `_find`, `_expectOne`, `_expectNone`, `_expect`),
checks that a user could edit them, clicks or selects through them, and
reads grids, menus, combo boxes and templates. All of this runs against a
mocked Vaadin environment (`MockVaadin`) backed by a mocked servlet API:
session, request, response, context and servlet config.

This project models that core and proves what its code promises.

- **Component query engine.** A component is an immutable value with its
  children. Its parent chain is carried beside it, nearest ancestor first.
  The model covers:
  - the Vaadin 10+ and Vaadin 8 search specifications;
  - the predicates they compile to and their textual descriptions;
  - the depth-first walk, and the pre-order iterator of Vaadin 8;
  - the count check behind every lookup.
- **Editability rules.** Effective visibility and enablement, the
  `checkEditableByUser` checks of both Vaadin versions, and the guarded
  `_value` setters.
- **Helpers.**
  - label-based selection in combo boxes, selects and checkbox groups;
  - the longest-prefix route lookup of `currentView`;
  - template placeholder substitution and presentation values;
  - `ellipsize` and the JVM version parser;
  - the pretty tree printer;
  - grid row access and the grid dump;
  - shortcut filter matching;
  - context menu clicks;
  - the Java builder over the search specification;
  - choosing a template's `@JsModule` file, with the cache of sources read
    from the webpack statistics.
- **The mocks.**
  - the per-thread state machine of `MockVaadin`: setup, tear-down, closing
    the UI and the session, re-creating both after a logout, and running the
    UI access queue with its error aggregation;
  - the servlet session, its live attribute-map view and entry iterator;
  - the request, the response, the context and the environment defaults.

Code that changes state step by step is modelled as classes, with
`modifies` clauses and postconditions over `old` state. Examples are the
session, request, response, context, template parser, environment, search
builder and string builder. Loops are modelled as methods with invariants.
Each method is tied to a specification function, and the properties are
proved about that function. Framework objects and services are values or
parameters:
- the route registry (`resolve`);
- the combo box filter (`accepts`);
- the item label generator (`labelOf`);
- the HTML text extraction (`htmlText`);
- the JDK's MIME guess;
- the clock (`now`);
- the statistics file and its hash.

Kotlin `Int` arithmetic is written out where it matters (`Ranges.Wrap32`):
- `IntRange.size` wraps for ranges wider than `Int.MAX_VALUE`;
  `Ranges.SizeWrapsAtTheEnds` shows `(0..Int.MAX_VALUE).size == 0`;
- the session id counter wraps after 2^32 ids;
- `toInt()` accepts only 32-bit values.

Where the code and its documentation differ, the model follows the code.
- `usesBundleFile` is documented as "production mode or disabled dev
  server". The code requires production mode *and* no dev server.
  `NpmTemplateParser.UsesBundleFile` follows the code.
- In `_find`, the "Too many" failure is the final `else` branch. It is
  therefore reported for any count outside the range that is neither zero
  nor below the minimum.
- The second disjunct of `ellipsize`'s guard never decides anything: the
  first disjunct already holds whenever it does.

## Model

| member | source | states |
|---|---|---|
| BasicUtils.CheckEditableSpec | karibu-testing-v10/src/main/kotlin/com/github/mvysny/kaributesting/v10/BasicUtils.kt:78-90 | `checkEditableByUser` passes exactly when the component and every ancestor are visible, nothing in the chain is disabled and it is not a read-only value; each failure (hidden, not enabled, nested in a disabled component, read-only) is characterised by an if-and-only-if, with visibility reported first and "not enabled" only under an enabled parent chain |
| BasicUtils.ExpectNotEditableSpec | karibu-testing-v10/src/main/kotlin/com/github/mvysny/kaributesting/v10/BasicUtils.kt:96-103 | `expectNotEditableByUser` passes iff something makes the component uneditable: it or an ancestor is hidden or disabled, or it is read-only |
| BasicUtils.ExpectEnabledDisabledComplementary | karibu-testing-v10/src/main/kotlin/com/github/mvysny/kaributesting/v10/BasicUtils.kt:176-191 | exactly one of `_expectEnabled` and `_expectDisabled` passes; `_expectEnabled` passes iff neither the component nor an ancestor disables itself; `_expectDisabled` always passes under a disabled ancestor |
| BasicUtilsV8.IsEffectivelyEnabledIff | karibu-testing-v8/src/main/kotlin/com/github/mvysny/kaributesting/v8/BasicUtils.kt:44-50 | the v8 `isEffectivelyEnabled` holds iff the component and every ancestor are enabled; a parentless enabled component counts as enabled |
| BasicUtilsV8.CheckEditableSpec | karibu-testing-v8/src/main/kotlin/com/github/mvysny/kaributesting/v8/BasicUtils.kt:35-42 | the v8 check passes iff the component and its ancestors are visible and enabled and it is not read-only; a visible component whose own flag is off fails "not enabled" whatever its ancestors; "nested in a disabled component" iff it is enabled and an ancestor is not |
| BasicUtilsV8.ValueField.SetValue | karibu-testing-v8/src/main/kotlin/com/github/mvysny/kaributesting/v8/BasicUtils.kt:71-76 | the `_value` setter reports the editability check's outcome, assigns the value exactly when the check passes, and leaves the component unchanged otherwise |
| CheckboxGroups.LabelsInOrder | karibu-testing-v10/src/main/kotlin/com/github/mvysny/kaributesting/v10/CheckboxGroup.kt:45-47 | the keys of `groupBy { label }`: every item's label appears, only items' labels appear, none twice, and each key comes before another exactly when its first item comes before any item of the other |
| CheckboxGroups.FirstAmbiguous | karibu-testing-v10/src/main/kotlin/com/github/mvysny/kaributesting/v10/CheckboxGroup.kt:49-50 | the first requested label in group order with more than one item, no earlier requested label being ambiguous; none iff every requested label has at most one item |
| CheckboxGroups.SelectByLabel | karibu-testing-v10/src/main/kotlin/com/github/mvysny/kaributesting/v10/CheckboxGroup.kt:42-58 | an ambiguous label fails first with its items, then missing labels fail naming exactly the missing ones, then a non-editable component fails; it passes iff none of these applies, and the value becomes the set of items carrying a requested label, each requested label having exactly one item; on failure the value is unchanged |
| Seqs.FilterInOrder | karibu-testing-v10/src/main/kotlin/com/github/mvysny/kaributesting/v10/ComboBox.kt:59-60 | `filter` keeps the order of the list: the result is the elements at exactly the positions whose element passes, in ascending order, duplicates included |
| ComboBoxes.WithLabel | karibu-testing-v10/src/main/kotlin/com/github/mvysny/kaributesting/v10/ComboBox.kt:149-150 | the items whose label equals the requested one, all of them, in list order and as often as they occur |
| ComboBoxes.SuggestionsWithLabel | karibu-testing-v10/src/main/kotlin/com/github/mvysny/kaributesting/v10/ComboBox.kt:52-60 | an item is a candidate iff its label is the requested one and, unless the filter is bypassed, the combo box's filter accepts the label as input |
| ComboBoxes.ComboSelectByLabel | karibu-testing-v10/src/main/kotlin/com/github/mvysny/kaributesting/v10/ComboBox.kt:48-76 | editability is checked first; then no candidate fails, several candidates fail naming them, and a single candidate becomes the value (an item of the data carrying the label); passes iff editable with exactly one candidate; the value is unchanged on failure |
| ComboBoxes.SelectByLabel | karibu-testing-v10/src/main/kotlin/com/github/mvysny/kaributesting/v10/ComboBox.kt:143-160 | no item with the label fails, several fail naming them, and only then the `_value` setter's editability check can fail; passes iff exactly one item carries the label and the field is editable, the value then being that item; unchanged on failure |
| ComboBoxes.FireCustomValueSet | karibu-testing-v10/src/main/kotlin/com/github/mvysny/kaributesting/v10/ComboBox.kt:82-86 | refused when not editable, then when custom values are not allowed; the event carrying the user's input is fired iff both hold |
| Components.ChildrenOf | karibu-testing-v10/src/main/kotlin/com/github/mvysny/kaributesting/v10/Locator.kt:224-226 | each child of a component, in order, is located under the component followed by its own ancestors |
| Components.Walk | karibu-testing-v10/src/main/kotlin/com/github/mvysny/kaributesting/v10/Locator.kt:220-226 | `_walkAll` is never empty and starts with the component itself, located where it is |
| Components.WalkUnfold | karibu-testing-v10/src/main/kotlin/com/github/mvysny/kaributesting/v10/Locator.kt:220-226 | depth-first order: the walk is the component, then the walks of its children, each child's whole subtree before its next sibling |
| Components.WalkForestIsWalkAll | karibu-testing-v10/src/main/kotlin/com/github/mvysny/kaributesting/v10/Locator.kt:220-226 | walking a run of siblings is walking each located sibling in turn |
| Components.WalkAllAppend | karibu-testing-v10/src/main/kotlin/com/github/mvysny/kaributesting/v10/Locator.kt:220-226 | the walk of two runs of components is the first run's walk followed by the second's |
| Components.EffectivelyVisibleIff | karibu-testing-v10/src/main/kotlin/com/github/mvysny/kaributesting/v10/BasicUtils.kt:45-53 | `isEffectivelyVisible` (line 105) holds iff the component and every ancestor are `_isVisible`, where a Text is visible iff its text is not blank |
| Components.IsEnabledIff | karibu-testing-v10/src/main/kotlin/com/github/mvysny/kaributesting/v10/BasicUtils.kt:118-127 | `isEnabled` holds iff neither the component nor any ancestor disables itself; a component without an enabled flag takes its parent's state, true at the root |
| HasValues.Field.SetValue | karibu-testing-v10/src/main/kotlin/com/github/mvysny/kaributesting/v10/HasValueUtils.kt:21-26 | the `_value` setter answers the editability check's outcome, assigns the value exactly when it passes and leaves the field unchanged when it fails |
| Navigator.CurrentPath | karibu-testing-v10/src/main/kotlin/com/github/mvysny/kaributesting/v10/Navigator.kt:15-17 | null iff there is no current UI, otherwise the UI's location |
| Navigator.Segments | karibu-testing-v10/src/main/kotlin/com/github/mvysny/kaributesting/v10/Navigator.kt:23-27 | splitting the trimmed, query-less path always yields at least one segment |
| Navigator.ViewFromSpec | karibu-testing-v10/src/main/kotlin/com/github/mvysny/kaributesting/v10/Navigator.kt:28-36 | the prefix loop answers null iff no prefix of length 1 to k resolves; otherwise the view of some resolving prefix such that no longer prefix resolves |
| Navigator.WholePathTriedFirst | karibu-testing-v10/src/main/kotlin/com/github/mvysny/kaributesting/v10/Navigator.kt:23-31 | the first lookup is the whole trimmed, query-less path with no parameters: joining all segments gives the path back |
| Navigator.CurrentView | karibu-testing-v10/src/main/kotlin/com/github/mvysny/kaributesting/v10/Navigator.kt:22-37 | the loop with its early return computes the longest resolving prefix's view, and null without a UI |
| Navigator.ExpectView | karibu-testing-v10/src/main/kotlin/com/github/mvysny/kaributesting/v10/Navigator.kt:42-45 | passes iff the current view is the expected one, and otherwise reports the view found |
| Renderers.Placeholder | karibu-testing-v10/src/main/kotlin/com/github/mvysny/kaributesting/v10/Renderers.kt:48-49 | the placeholder `[[item.k]]` is the key wrapped in nine characters |
| Renderers.RenderTemplate | karibu-testing-v10/src/main/kotlin/com/github/mvysny/kaributesting/v10/Renderers.kt:45-53 | the loop over the value providers answers the template with each provider's placeholder replaced in order |
| Renderers.RenderWithoutPlaceholders | karibu-testing-v10/src/main/kotlin/com/github/mvysny/kaributesting/v10/Renderers.kt:45-53 | a template containing none of the providers' placeholders is returned unchanged |
| Renderers.RenderOneProvider | karibu-testing-v10/src/main/kotlin/com/github/mvysny/kaributesting/v10/Renderers.kt:47-50 | with one provider, every occurrence of its placeholder is replaced: the length changes by the value's length minus the placeholder's, once per occurrence |
| Renderers.PresentationValue | karibu-testing-v10/src/main/kotlin/com/github/mvysny/kaributesting/v10/Renderers.kt:23-40 | null iff the renderer is of no known kind; a template renderer gives the HTML text of its rendered template |
| Shortcuts.Filter | karibu-testing-v10/src/main/kotlin/com/github/mvysny/kaributesting/v10/Shortcuts.kt:11-15 | the mock event's filter starts with the key filter, followed by " && " and the modifier filter |
| Shortcuts.GetBoolean | karibu-testing-v10/src/main/kotlin/com/github/mvysny/kaributesting/v10/Shortcuts.kt:21-29 | a key not starting with "([" goes to the ordinary JSON lookup; a filter key answers true iff, with the stop-propagation and then the prevent-default suffix removed, it starts with the event's filter |
| Shortcuts.OwnFilterMatches | karibu-testing-v10/src/main/kotlin/com/github/mvysny/kaributesting/v10/Shortcuts.kt:21-29 | the registration's own filter answers true with or without the prevent-default and stop-propagation suffixes appended |
| Shortcuts.PreventDefaultIsNotStopPropagation | karibu-testing-v10/src/main/kotlin/com/github/mvysny/kaributesting/v10/Shortcuts.kt:26-27 | a key ending in the prevent-default suffix is not stripped by the stop-propagation removal |
| Shortcuts.RemoveAppended | karibu-testing-v10/src/main/kotlin/com/github/mvysny/kaributesting/v10/Shortcuts.kt:26-27 | removing a suffix that was appended gives the key back |
| Utils.ParseJvmVersion | karibu-testing-v10/src/main/kotlin/com/github/mvysny/kaributesting/v10/Utils.kt:44-48 | a parsed version is a non-negative value that fits in an Int; no leading digits or too large a number is a NumberFormatException |
| Utils.ParsesRemainder | karibu-testing-v10/src/main/kotlin/com/github/mvysny/kaributesting/v10/Utils.kt:44-48 | when the text left after dropping "1." starts with the number n followed by a non-digit or nothing, the version is n |
| Utils.ParseJvmVersionOfNumber | karibu-testing-v10/src/main/kotlin/com/github/mvysny/kaributesting/v10/Utils.kt:44-48 | the new scheme: a version string starting with the number n (not "1.") parses to n |
| Utils.ParseJvmVersionOfLegacy | karibu-testing-v10/src/main/kotlin/com/github/mvysny/kaributesting/v10/Utils.kt:40-48 | the old scheme: "1." followed by n parses to n, so 1.5 is 5 |
| Utils.ParseJvmVersionOfJava8 | karibu-testing-v10/src/main/kotlin/com/github/mvysny/kaributesting/v10/Utils.kt:40-48 | "1.8.0_211" parses to 8 |
| Utils.ParseJvmVersionOfJava11 | karibu-testing-v10/src/main/kotlin/com/github/mvysny/kaributesting/v10/Utils.kt:40-48 | "11.0.4" parses to 11 |
| Utils.TakeDigitsOfDigits | karibu-testing-v10/src/main/kotlin/com/github/mvysny/kaributesting/v10/Utils.kt:46 | `takeWhile { isDigit }` of digits followed by a non-digit is those digits |
| Utils.Ellipsize | karibu-testing-v10/src/main/kotlin/com/github/mvysny/kaributesting/v10/Utils.kt:50-56 | fails iff maxLength is shorter than the marker; a string that fits is kept; a longer one becomes exactly maxLength characters, a prefix of the string followed by the marker |
| Utils.EllipsizeIdempotent | karibu-testing-v10/src/main/kotlin/com/github/mvysny/kaributesting/v10/Utils.kt:50-56 | the result never exceeds maxLength, and ellipsizing it again changes nothing |
| Ranges.Wrap32 | karibu-testing-v10/src/main/kotlin/com/github/mvysny/kaributesting/v10/Utils.kt:26 | Int arithmetic wraps into 32 bits and leaves in-range values alone |
| Ranges.Wrap32Injective | karibu-testing-v10/src/main/kotlin/com/github/mvysny/kaributesting/v10/Utils.kt:26 | two integers less than 2^32 apart wrap to different Ints |
| Ranges.MembersCount | karibu-testing-v10/src/main/kotlin/com/github/mvysny/kaributesting/v10/Utils.kt:26 | the range a..b has b + 1 - a members |
| Ranges.SizeCountsMembers | karibu-testing-v10/src/main/kotlin/com/github/mvysny/kaributesting/v10/Utils.kt:26 | without overflow, `IntRange.size` is max(0, last + 1 - first), the number of members |
| Ranges.SizeWrapsAtTheEnds | karibu-testing-v10/src/main/kotlin/com/github/mvysny/kaributesting/v10/Utils.kt:26 | with overflow the size wraps: `(0..Int.MAX_VALUE).size` is 0 although the range has 2^31 members, and the empty `(Int.MAX_VALUE..Int.MIN_VALUE).size` is 2 |
| Grids.CheckedSize | karibu-testing-v10/src/main/kotlin/com/github/mvysny/kaributesting/v10/Grid.kt:879-884 | a parent without children has 0 children whatever `size` says; otherwise a negative size is an IllegalStateException and any other is believed |
| Grids.FetchesChildren | karibu-testing-v10/src/main/kotlin/com/github/mvysny/kaributesting/v10/Grid.kt:857-862 | a collapsed item's children are never fetched; they are fetched only for an expanded item that has children and reports a positive size |
| Grids.WalkItem | karibu-testing-v10/src/main/kotlin/com/github/mvysny/kaributesting/v10/Grid.kt:864-865 | the subtree walk starts with the item, never yields more rows than the subtree holds, and is exactly the item when it is collapsed |
| Grids.WalkForest | karibu-testing-v10/src/main/kotlin/com/github/mvysny/kaributesting/v10/Grid.kt:867-868 | the flattened walks of the roots give at least one row per root and never more than the forest holds |
| Grids.WalkItemFullyExpanded | karibu-testing-v10/src/main/kotlin/com/github/mvysny/kaributesting/v10/Grid.kt:851-869 | with every item expanded and truthful sizes, the walk is the subtree's full depth-first pre-order |
| Grids.WalkForestFullyExpanded | karibu-testing-v10/src/main/kotlin/com/github/mvysny/kaributesting/v10/Grid.kt:851-869 | with every item expanded and truthful sizes, the row sequence is the forest's full pre-order |
| Grids.Rows | karibu-testing-v10/src/main/kotlin/com/github/mvysny/kaributesting/v10/Grid.kt:833-869 | a plain grid shows its provider's items; a tree grid whose root query reports a negative size fails |
| Grids.Size | karibu-testing-v10/src/main/kotlin/com/github/mvysny/kaributesting/v10/Grid.kt:279-287 | `_size` succeeds iff the rows can be read; an undefined-size list counts at most the sane fetch limit, every other grid counts its rows |
| Grids.Window | karibu-testing-v10/src/main/kotlin/com/github/mvysny/kaributesting/v10/Grid.kt:163-166 | `drop(offset).take(limit)` keeps at most `limit` rows starting at `offset`, in order |
| Grids.Fetch | karibu-testing-v10/src/main/kotlin/com/github/mvysny/kaributesting/v10/Grid.kt:163-194 | a plain grid refuses a limit above the sane limit; the fetch succeeds iff the offset and limit are non-negative and the rows can be read, and answers the window of the rows |
| Grids.GetOrNull | karibu-testing-v10/src/main/kotlin/com/github/mvysny/kaributesting/v10/Grid.kt:112-127 | a negative index fails; otherwise null exactly when there is no row at the index, and the row there when there is one |
| Grids.Get | karibu-testing-v10/src/main/kotlin/com/github/mvysny/kaributesting/v10/Grid.kt:88-99 | `_get` succeeds iff the index is a row index, answering the row there; a negative index or one past a defined size is its own error |
| Grids.ExpectRows | karibu-testing-v10/src/main/kotlin/com/github/mvysny/kaributesting/v10/Grid.kt:523-528 | passes iff `_size()` equals the expected count; a different size fails naming both |
| Grids.SortIndicator | karibu-testing-v10/src/main/kotlin/com/github/mvysny/kaributesting/v10/Grid.kt:450-457 | "" iff no sort order entry names the column, "v" iff the first one that does is ascending, "^" otherwise |
| Grids.VisibleColumns | karibu-testing-v10/src/main/kotlin/com/github/mvysny/kaributesting/v10/Grid.kt:473-474 | exactly the visible columns |
| Grids.DisplayIndices | karibu-testing-v10/src/main/kotlin/com/github/mvysny/kaributesting/v10/Grid.kt:481-482 | `rows.intersect(indices)`: exactly the members of the range that are row indices, ascending |
| Grids.AndMoreWhenRangeMisses | karibu-testing-v10/src/main/kotlin/com/github/mvysny/kaributesting/v10/Grid.kt:486-488 | "--and N more" is written iff some row index below the size is outside the range |
| Grids.DisplayIndicesMissing | karibu-testing-v10/src/main/kotlin/com/github/mvysny/kaributesting/v10/Grid.kt:486-488 | a row index the range misses makes the displayed rows fewer than the size |
| Grids.RowLinesAppend | karibu-testing-v10/src/main/kotlin/com/github/mvysny/kaributesting/v10/Grid.kt:483-485 | the dump text of k + 1 rows is that of k rows followed by row k's line |
| Grids.FormattedRows | karibu-testing-v10/src/main/kotlin/com/github/mvysny/kaributesting/v10/Grid.kt:493-498 | one formatted line per row of a plain grid |
| Grids.ProbedIndices | karibu-testing-v10/src/main/kotlin/com/github/mvysny/kaributesting/v10/Grid.kt:506-511 | with unknown size the loop prints consecutive members of the range from `first`, stopping at the first index without a row |
| Grids.PossiblyMoreWhenRangeFilled | karibu-testing-v10/src/main/kotlin/com/github/mvysny/kaributesting/v10/Grid.kt:512-516 | without wrap-around, "--and possibly more" is written iff every member of the range had a row |
| Grids.AppendRowLines | karibu-testing-v10/src/main/kotlin/com/github/mvysny/kaributesting/v10/Grid.kt:483-485 | the loop over the display indices writes each index's line, in order |
| Grids.DumpSized | karibu-testing-v10/src/main/kotlin/com/github/mvysny/kaributesting/v10/Grid.kt:478-503 | with a known size: the displayed rows' lines, then "--and N more" with N the rows left out |
| Grids.ProbeRows | karibu-testing-v10/src/main/kotlin/com/github/mvysny/kaributesting/v10/Grid.kt:505-511 | the probing loop fails at once on a negative first index, otherwise prints the probed rows and counts them |
| Grids.DumpProbing | karibu-testing-v10/src/main/kotlin/com/github/mvysny/kaributesting/v10/Grid.kt:504-516 | with an unknown size: fails iff the range is non-empty and starts below 0; otherwise the probed rows then "--and possibly more" when `rows.size` rows were printed and "--" otherwise |
| Grids.Dump | karibu-testing-v10/src/main/kotlin/com/github/mvysny/kaributesting/v10/Grid.kt:469-517 | the grid's description and header line, then: for a tree grid, the failure of building its tree or the displayed lines of the printed tree (split, blank lines dropped, root line dropped) and the "--and N more" trailer; for a known size, the displayed formatted rows and the trailer; for an unknown size, the negative-index failure or the probed rows and the "possibly more"/"--" trailer |
| Grids.PrettyTreeFollowsWalk | karibu-testing-v10/src/main/kotlin/com/github/mvysny/kaributesting/v10/Grid.kt:905-912 | `toPrettyTree` fails exactly when the item's walk fails; otherwise its nodes in pre-order are the names of the walked rows |
| Grids.DumpedTreeFollowsRows | karibu-testing-v10/src/main/kotlin/com/github/mvysny/kaributesting/v10/Grid.kt:892-919 | the tree `_dataSourceToPrettyTree` builds fails exactly when reading the rows fails, with the same failure; otherwise it is the `TreeGrid` root over one node per shown row, in row order |
| ContextMenus.Items | karibu-testing-v10/src/main/kotlin/com/github/mvysny/kaributesting/v10/ContextMenu.kt:145-150 | the order `fillInParentFor` visits items: the item first, then each sub-item's subtree |
| ContextMenus.ItemsHaveIds | karibu-testing-v10/src/main/kotlin/com/github/mvysny/kaributesting/v10/ContextMenu.kt:145-148 | the items visited are exactly the items of the subtree |
| ContextMenus.ItemsForestHaveIds | karibu-testing-v10/src/main/kotlin/com/github/mvysny/kaributesting/v10/ContextMenu.kt:150 | the items visited from the top-level items are exactly the menu's items |
| ContextMenus.RecordedInFrame | karibu-testing-v10/src/main/kotlin/com/github/mvysny/kaributesting/v10/ContextMenu.kt:145-148 | the parents recorded for a subtree survive any later change to other items' entries |
| ContextMenus.RecordedFrame | karibu-testing-v10/src/main/kotlin/com/github/mvysny/kaributesting/v10/ContextMenu.kt:145-150 | the parents recorded for a run of items survive any later change to other items' entries |
| ContextMenus.FillSpec | karibu-testing-v10/src/main/kotlin/com/github/mvysny/kaributesting/v10/ContextMenu.kt:145-148 | `fillInParentFor(item, parent)` adds exactly the subtree's items as keys, leaves every other entry alone, maps the item to `parent` and each sub-item to the item holding it |
| ContextMenus.FillForestSpec | karibu-testing-v10/src/main/kotlin/com/github/mvysny/kaributesting/v10/ContextMenu.kt:150 | filling in each top-level item adds exactly the menu's items, each mapped to its parent |
| ContextMenus.FillInParentFor | karibu-testing-v10/src/main/kotlin/com/github/mvysny/kaributesting/v10/ContextMenu.kt:145-148 | the recursive walk with its loop over the sub-items builds the map `FillSpec` describes |
| ContextMenus.GetParentMap | karibu-testing-v10/src/main/kotlin/com/github/mvysny/kaributesting/v10/ContextMenu.kt:142-152 | `getParentMap()`: every item of the menu is a key; top-level items map to the menu and sub-items to their parent item |
| ContextMenus.LocateIn | karibu-testing-v10/src/main/kotlin/com/github/mvysny/kaributesting/v10/ContextMenu.kt:212-241 | an item of the subtree is found with its chain of parent items, ending at the subtree's root; absent items are not found |
| ContextMenus.Locate | karibu-testing-v10/src/main/kotlin/com/github/mvysny/kaributesting/v10/ContextMenu.kt:212-241 | an item of the menu is found with its chain of parent items, ending at a top-level item |
| ContextMenus.LocateInFollowsParents | karibu-testing-v10/src/main/kotlin/com/github/mvysny/kaributesting/v10/ContextMenu.kt:220-224 | the located chain is what following the parent map from the item finds |
| ContextMenus.LocateFollowsParents | karibu-testing-v10/src/main/kotlin/com/github/mvysny/kaributesting/v10/ContextMenu.kt:220-224 | in the map `getParentMap` builds, following parents from any item visits its located chain and then reaches the menu |
| ContextMenus.CheckVisibleSpec | karibu-testing-v10/src/main/kotlin/com/github/mvysny/kaributesting/v10/ContextMenu.kt:212-242 | the visibility check fails on a hidden item with "is not visible", on a hidden parent item with the parent-item message, and otherwise answers the owner's check |
| ContextMenus.CheckEnabledSpec | karibu-testing-v10/src/main/kotlin/com/github/mvysny/kaributesting/v10/ContextMenu.kt:244-264 | the same for enablement; a context menu's target is not consulted, so under a context menu the check passes iff every item on the chain is enabled |
| ContextMenus.Flip | karibu-testing-v10/src/main/kotlin/com/github/mvysny/kaributesting/v10/ContextMenu.kt:182-184 | a checkable item's `isChecked` is inverted and nothing else changes |
| ContextMenus.ToggleForest | karibu-testing-v10/src/main/kotlin/com/github/mvysny/kaributesting/v10/ContextMenu.kt:182-184 | toggling an item keeps the menu's shape |
| ContextMenus.ToggleInTwice | karibu-testing-v10/src/main/kotlin/com/github/mvysny/kaributesting/v10/ContextMenu.kt:182-184 | toggling twice gives the subtree back |
| ContextMenus.ToggleForestTwice | karibu-testing-v10/src/main/kotlin/com/github/mvysny/kaributesting/v10/ContextMenu.kt:182-184 | toggling twice gives the menu back |
| ContextMenus.OnlyFlippedAppend | karibu-testing-v10/src/main/kotlin/com/github/mvysny/kaributesting/v10/ContextMenu.kt:182-184 | "only that item flipped" holds for two runs of items together when it holds for each |
| ContextMenus.ToggleInChangesOnlyItem | karibu-testing-v10/src/main/kotlin/com/github/mvysny/kaributesting/v10/ContextMenu.kt:182-184 | toggling changes nothing in the subtree but the `isChecked` of the clicked item |
| ContextMenus.ToggleForestChangesOnlyItem | karibu-testing-v10/src/main/kotlin/com/github/mvysny/kaributesting/v10/ContextMenu.kt:182-184 | toggling changes nothing in the menu but the `isChecked` of the clicked item |
| ContextMenus.FirstMatch | karibu-testing-v10/src/main/kotlin/com/github/mvysny/kaributesting/v10/ContextMenu.kt:29 | `firstOrNull`: none iff no item matches, otherwise the first match |
| ContextMenus.Menu.ClickAlong | karibu-testing-v10/src/main/kotlin/com/github/mvysny/kaributesting/v10/ContextMenu.kt:177-202 | the visibility check, then the enablement check; on failure nothing changes; on success a MenuItem is toggled if checkable and then one click event is recorded with the new `isChecked`, while a GridMenuItem is not toggled |
| ContextMenus.Menu.Click | karibu-testing-v10/src/main/kotlin/com/github/mvysny/kaributesting/v10/ContextMenu.kt:71-77 | an item not in the menu fails with "not contained in this menu" and changes nothing; otherwise the checks along its parent chain decide the outcome, a failed check changes nothing, and a passing click toggles the item (MenuItem) or not (GridMenuItem) and records exactly one event for it with the resulting `isChecked` |
| ContextMenus.Menu.ClickItemMatching | karibu-testing-v10/src/main/kotlin/com/github/mvysny/kaributesting/v10/ContextMenu.kt:23-35 | no matching item fails and changes nothing; otherwise the first matching item in parent-map order is clicked along its parent chain, with the outcome, items and events of that click |
| Locator.Checks | karibu-testing-v10/src/main/kotlin/com/github/mvysny/kaributesting/v10/Locator.kt:73-86 | `toPredicate`'s list always starts with the class check |
| Locator.CustomChecks | karibu-testing-v10/src/main/kotlin/com/github/mvysny/kaributesting/v10/Locator.kt:85 | one check per custom predicate, in order, each also requiring the class |
| Locator.AllHoldWhen | karibu-testing-v10/src/main/kotlin/com/github/mvysny/kaributesting/v10/Locator.kt:76-84 | a check added only when its criterion is set holds, or the criterion is unset |
| Locator.CriterionChecksIff | karibu-testing-v10/src/main/kotlin/com/github/mvysny/kaributesting/v10/Locator.kt:76-84 | the checks added for the set criteria all hold iff each set criterion, read on its own, holds |
| Locator.MatchesIff | karibu-testing-v10/src/main/kotlin/com/github/mvysny/kaributesting/v10/Locator.kt:73-87 | the compiled predicate holds iff the component is an instance of the class, every set criterion holds and every custom predicate holds; it always requires the class |
| Locator.BlankCriteriaIgnored | karibu-testing-v10/src/main/kotlin/com/github/mvysny/kaributesting/v10/Locator.kt:79-82 | a blank `classes`, `withoutClasses`, `themes` or `withoutThemes` matches exactly like an unset one |
| Locator.ClassesOnUnstyled | karibu-testing-v10/src/main/kotlin/com/github/mvysny/kaributesting/v10/Locator.kt:92-99 | a component without HasStyle never matches a non-blank `classes` criterion and always passes `withoutClasses` |
| Locator.ClassTokens | karibu-testing-v10/src/main/kotlin/com/github/mvysny/kaributesting/v10/Locator.kt:92-99 | with a single class word, `hasAllClasses` holds iff the component carries that class and `doesntHaveAnyClasses` iff it does not |
| Locator.PredicatePhrases | karibu-testing-v10/src/main/kotlin/com/github/mvysny/kaributesting/v10/Locator.kt:64 | one phrase per custom predicate, its `toString()` |
| Locator.Phrases | karibu-testing-v10/src/main/kotlin/com/github/mvysny/kaributesting/v10/Locator.kt:53-64 | the phrase list starts with the class's simple name, or its full name when the simple name is blank |
| Locator.ToStringStartsWithClass | karibu-testing-v10/src/main/kotlin/com/github/mvysny/kaributesting/v10/Locator.kt:52-66 | `toString` starts with the class name; a spec with only its class set, with the default count or 1..1, prints as just the class name |
| Locator.CriterionPhrasesOfDefault | karibu-testing-v10/src/main/kotlin/com/github/mvysny/kaributesting/v10/Locator.kt:54-62 | a spec with no optional criterion set adds no criterion phrase |
| Locator.ToStringCount | karibu-testing-v10/src/main/kotlin/com/github/mvysny/kaributesting/v10/Locator.kt:63 | the counts 0..Int.MAX_VALUE and 1..1 are never printed; any other count prints as "count=first..last" |
| Locator.CriterionPhrasesOfId | karibu-testing-v10/src/main/kotlin/com/github/mvysny/kaributesting/v10/Locator.kt:54-62 | with only the id set, the criterion phrases are just "id='…'" |
| Locator.PhrasesOfId | karibu-testing-v10/src/main/kotlin/com/github/mvysny/kaributesting/v10/Locator.kt:52-64 | with only the class and id set, the phrases are the class name and "id='…'" |
| Locator.ToStringOfId | karibu-testing-v10/src/main/kotlin/com/github/mvysny/kaributesting/v10/Locator.kt:52-66 | the phrases are joined with " and ": class name, " and id='", id, "'" |
| Locator.VisibleMatches | karibu-testing-v10/src/main/kotlin/com/github/mvysny/kaributesting/v10/Locator.kt:211 | exactly the walked components that are effectively visible and match, never more than walked |
| Locator.VisibleMatchesAppend | karibu-testing-v10/src/main/kotlin/com/github/mvysny/kaributesting/v10/Locator.kt:211 | the filter keeps walk order: it distributes over concatenation |
| Locator.FirstServerError | karibu-testing-v10/src/main/kotlin/com/github/mvysny/kaributesting/v10/Locator.kt:206-210 | none iff no walked component is the internal-server-error view; otherwise a walked error view |
| Locator.CountVerdict | karibu-testing-v10/src/main/kotlin/com/github/mvysny/kaributesting/v10/Locator.kt:158-164 | no failure iff the count contains the match count; "No visible" only for none, "Too few" for fewer than `first`, "Too many" above `last` |
| Locator.FindSpec | karibu-testing-v10/src/main/kotlin/com/github/mvysny/kaributesting/v10/Locator.kt:203-212 | `find` fails iff the walk holds an error view; otherwise it returns exactly the effectively visible matching components of the walk, the root first when it qualifies |
| Locator.Configure | karibu-testing-v10/src/main/kotlin/com/github/mvysny/kaributesting/v10/Locator.kt:154-156 | the block cannot change the searched class |
| Locator.FindCountedSpec | karibu-testing-v10/src/main/kotlin/com/github/mvysny/kaributesting/v10/Locator.kt:154-180 | `_find` fails with a count mismatch iff the number of visible matches is outside `count` ("No visible" for none, "Too few" below the range, "Too many" above it), and otherwise returns all matches, every one an instance of the class |
| Locator.GetSpec | karibu-testing-v10/src/main/kotlin/com/github/mvysny/kaributesting/v10/Locator.kt:124-131 | `_get` rejects a block that changes the count from 1..1; otherwise it succeeds iff there is exactly one visible match, returning that match |
| Locator.ExpectNoneSpec | karibu-testing-v10/src/main/kotlin/com/github/mvysny/kaributesting/v10/Locator.kt:240-247 | `_expectNone` passes iff the block keeps the count 0..0 and nothing visible matches |
| Locator.ExpectSpec | karibu-testing-v10/src/main/kotlin/com/github/mvysny/kaributesting/v10/Locator.kt:332-339 | when the block leaves the count alone, `_expect(n)` passes iff exactly n visible components match |
| LocatorV8.Kids | karibu-testing-v8/src/main/kotlin/com/github/mvysny/kaributesting/v8/Locator.kt:205-208 | each child of a component, in order, with the component prepended to its parent chain |
| LocatorV8.Walk | karibu-testing-v8/src/main/kotlin/com/github/mvysny/kaributesting/v8/Locator.kt:190-208 | the pre-order walk is never empty and starts with the root |
| LocatorV8.WalkUnfold | karibu-testing-v8/src/main/kotlin/com/github/mvysny/kaributesting/v8/Locator.kt:190-193 | the walk is the node, then the walks of its children in order |
| LocatorV8.WalkForestIsWalkAll | karibu-testing-v8/src/main/kotlin/com/github/mvysny/kaributesting/v8/Locator.kt:190-193 | walking a run of siblings is walking each of them in turn |
| LocatorV8.WalkAllAppend | karibu-testing-v8/src/main/kotlin/com/github/mvysny/kaributesting/v8/Locator.kt:190-193 | the walk of two runs of nodes is the first run's walk followed by the second's |
| LocatorV8.PopStep | karibu-testing-v8/src/main/kotlin/com/github/mvysny/kaributesting/v8/Locator.kt:199-200 | popping the head of the deque and pushing its children in reverse leaves exactly the rest of the walk to be returned |
| LocatorV8.PreorderTreeIterator.constructor | karibu-testing-v8/src/main/kotlin/com/github/mvysny/kaributesting/v8/Locator.kt:195 | the deque starts holding only the root, so the iterator returns the whole pre-order walk |
| LocatorV8.PreorderTreeIterator.HasNext | karibu-testing-v8/src/main/kotlin/com/github/mvysny/kaributesting/v8/Locator.kt:196 | `hasNext()` iff some node of the walk is still to be returned |
| LocatorV8.PreorderTreeIterator.Next | karibu-testing-v8/src/main/kotlin/com/github/mvysny/kaributesting/v8/Locator.kt:197-202 | on an exhausted iterator fails with NoSuchElementException and changes nothing; otherwise returns the next node of the walk, pushes its children in front of the rest, and the remaining walk shrinks by that node |
| LocatorV8.EffectivelyVisibleIff | karibu-testing-v8/src/main/kotlin/com/github/mvysny/kaributesting/v8/Locator.kt:179 | `isEffectivelyVisible` holds iff the component and every ancestor are visible |
| LocatorV8.StyleNamesIff | karibu-testing-v8/src/main/kotlin/com/github/mvysny/kaributesting/v8/Locator.kt:76-84 | for a non-blank criterion, `styles` demands every space-separated word as a style name and `withoutStyles` forbids every one |
| LocatorV8.Checks | karibu-testing-v8/src/main/kotlin/com/github/mvysny/kaributesting/v8/Locator.kt:60-70 | `toPredicate`'s list always starts with the class check |
| LocatorV8.CustomChecks | karibu-testing-v8/src/main/kotlin/com/github/mvysny/kaributesting/v8/Locator.kt:69 | one check per custom predicate, in order, each also requiring the class |
| LocatorV8.AllHoldWhen | karibu-testing-v8/src/main/kotlin/com/github/mvysny/kaributesting/v8/Locator.kt:63-68 | a check added only when its criterion is set holds, or the criterion is unset |
| LocatorV8.CriterionChecksIff | karibu-testing-v8/src/main/kotlin/com/github/mvysny/kaributesting/v8/Locator.kt:63-68 | the checks added for the set criteria all hold iff each set criterion, read on its own, holds |
| LocatorV8.MatchesIff | karibu-testing-v8/src/main/kotlin/com/github/mvysny/kaributesting/v8/Locator.kt:60-71 | the compiled predicate holds iff the class, every set criterion and every custom predicate hold |
| LocatorV8.Phrases | karibu-testing-v8/src/main/kotlin/com/github/mvysny/kaributesting/v8/Locator.kt:43-51 | the phrase list starts with the class's simple name, or its full name when that is blank |
| LocatorV8.ToStringSpec | karibu-testing-v8/src/main/kotlin/com/github/mvysny/kaributesting/v8/Locator.kt:42-53 | `toString` starts with the class name and mentions the count exactly when it is neither 0..Int.MAX_VALUE nor 1..1 |
| LocatorV8.VisibleMatches | karibu-testing-v8/src/main/kotlin/com/github/mvysny/kaributesting/v8/Locator.kt:183 | exactly the walked components that are effectively visible and match, never more than walked |
| LocatorV8.VisibleMatchesAppend | karibu-testing-v8/src/main/kotlin/com/github/mvysny/kaributesting/v8/Locator.kt:183 | the filter keeps walk order: it distributes over concatenation |
| LocatorV8.FindStep | karibu-testing-v8/src/main/kotlin/com/github/mvysny/kaributesting/v8/Locator.kt:183 | one loop step moves the node taken from the remaining walk to the seen part, extending the matches by that node when it qualifies |
| LocatorV8.Find | karibu-testing-v8/src/main/kotlin/com/github/mvysny/kaributesting/v8/Locator.kt:181-186 | iterating the pre-order walk keeps exactly the effectively visible matching components, in walk order |
| LocatorV8.FindCounted | karibu-testing-v8/src/main/kotlin/com/github/mvysny/kaributesting/v8/Locator.kt:132-155 | `_find` succeeds iff the number of visible matches is in `count` and then returns them all; it fails "No visible" iff none match and 0 is outside the count, "Too few" iff fewer than `first`, "Too many" otherwise |
| SearchSpecBuilder.SearchSpecJ.constructor | karibu-testing-v10/src/main/java/com/github/mvysny/kaributesting/v10/SearchSpecJ.java:23-25 | the builder wraps the given spec |
| SearchSpecBuilder.SearchSpecJ.WithId | karibu-testing-v10/src/main/java/com/github/mvysny/kaributesting/v10/SearchSpecJ.java:33-36 | sets only the id and returns the builder itself |
| SearchSpecBuilder.SearchSpecJ.WithCaption | karibu-testing-v10/src/main/java/com/github/mvysny/kaributesting/v10/SearchSpecJ.java:57-60 | sets only the caption and returns the builder itself |
| SearchSpecBuilder.SearchSpecJ.WithValue | karibu-testing-v10/src/main/java/com/github/mvysny/kaributesting/v10/SearchSpecJ.java:68-71 | sets only the value and returns the builder itself |
| SearchSpecBuilder.SearchSpecJ.WithPlaceholder | karibu-testing-v10/src/main/java/com/github/mvysny/kaributesting/v10/SearchSpecJ.java:79-82 | sets only the placeholder and returns the builder itself |
| SearchSpecBuilder.SearchSpecJ.WithText | karibu-testing-v10/src/main/java/com/github/mvysny/kaributesting/v10/SearchSpecJ.java:90-93 | sets only the text and returns the builder itself |
| SearchSpecBuilder.SearchSpecJ.WithCount | karibu-testing-v10/src/main/java/com/github/mvysny/kaributesting/v10/SearchSpecJ.java:101-104 | sets only the count range and returns the builder itself |
| SearchSpecBuilder.SearchSpecJ.WithExactCount | karibu-testing-v10/src/main/java/com/github/mvysny/kaributesting/v10/SearchSpecJ.java:112-114 | `withCount(n)` sets the count to n..n |
| SearchSpecBuilder.SearchSpecJ.WithCountBetween | karibu-testing-v10/src/main/java/com/github/mvysny/kaributesting/v10/SearchSpecJ.java:123-128 | `withCount(min, max)` fails with IllegalArgumentException iff min > max, leaving the spec unchanged; otherwise the count becomes min..max |
| SearchSpecBuilder.SearchSpecJ.WithClasses | karibu-testing-v10/src/main/java/com/github/mvysny/kaributesting/v10/SearchSpecJ.java:136-139 | sets only `classes` and returns the builder itself |
| SearchSpecBuilder.SearchSpecJ.WithoutClasses | karibu-testing-v10/src/main/java/com/github/mvysny/kaributesting/v10/SearchSpecJ.java:147-150 | sets only `withoutClasses` and returns the builder itself |
| SearchSpecBuilder.SearchSpecJ.WithThemes | karibu-testing-v10/src/main/java/com/github/mvysny/kaributesting/v10/SearchSpecJ.java:158-161 | sets only `themes` and returns the builder itself |
| SearchSpecBuilder.SearchSpecJ.WithoutThemes | karibu-testing-v10/src/main/java/com/github/mvysny/kaributesting/v10/SearchSpecJ.java:169-172 | sets only `withoutThemes` and returns the builder itself |
| SearchSpecBuilder.SearchSpecJ.WithPredicate | karibu-testing-v10/src/main/java/com/github/mvysny/kaributesting/v10/SearchSpecJ.java:183-186 | appends the predicate after those added before |
| SearchSpecBuilder.SearchSpecJ.ToPredicate | karibu-testing-v10/src/main/java/com/github/mvysny/kaributesting/v10/SearchSpecJ.java:204-218 | the predicate holds exactly for the components the spec matches, and describes itself by the spec's `toString()` |
| SearchSpecBuilder.PredicateDescriptionIsCaptured | karibu-testing-v10/src/main/java/com/github/mvysny/kaributesting/v10/SearchSpecJ.java:204-218 | the description is taken when the predicate is made: changing the builder afterwards does not change it |
| NpmTemplateParser.DependencyHasTagNameExamples | karibu-testing-v10/src/main/java/com/github/mvysny/kaributesting/v10/NpmTemplateParserCopy.java:149-156 | `tag.js` names the tag, and so does any `dir/tag.js` with a lower-case path |
| NpmTemplateParser.HasTagNameIgnoresUrlCase | karibu-testing-v10/src/main/java/com/github/mvysny/kaributesting/v10/NpmTemplateParserCopy.java:149-156 | whether a URL names the tag does not depend on the URL's case |
| NpmTemplateParser.EffectiveStatsIdempotent | karibu-testing-v10/src/main/java/com/github/mvysny/kaributesting/v10/NpmTemplateParserCopy.java:170-179 | reading the statistics again straight after a read leaves them as they are |
| NpmTemplateParser.TemplateParser.constructor | karibu-testing-v10/src/main/java/com/github/mvysny/kaributesting/v10/NpmTemplateParserCopy.java:67-72 | a new parser has an empty cache and no statistics |
| NpmTemplateParser.TemplateParser.ResetCache | karibu-testing-v10/src/main/java/com/github/mvysny/kaributesting/v10/NpmTemplateParserCopy.java:226-229 | `resetCache` empties the cache and keeps the new statistics |
| NpmTemplateParser.TemplateParser.GetSourcesFromStats | karibu-testing-v10/src/main/java/com/github/mvysny/kaributesting/v10/NpmTemplateParserCopy.java:170-188 | re-reads the statistics when `isStatsFileReadNeeded` says so and they are available; caches the URL's source the first time it is asked for while statistics exist; answers what the current statistics hold for the URL, null without statistics; the cache stays consistent with the statistics |
| NpmTemplateParser.ChooseSpec | karibu-testing-v10/src/main/java/com/github/mvysny/kaributesting/v10/NpmTemplateParserCopy.java:95-121 | the loop chooses nothing iff no dependency is a JsModule with a source; when one whose URL names the tag is, the first such wins; otherwise the first one with a source is kept |
| NpmTemplateParser.ChooseKeeps | karibu-testing-v10/src/main/java/com/github/mvysny/kaributesting/v10/NpmTemplateParserCopy.java:114-116 | without a usable dependency the loop keeps what it had; with one it always ends with a choice |
| NpmTemplateParser.ChooseTagged | karibu-testing-v10/src/main/java/com/github/mvysny/kaributesting/v10/NpmTemplateParserCopy.java:117-120 | the first usable dependency naming the tag is chosen and ends the loop |
| NpmTemplateParser.ChooseFirst | karibu-testing-v10/src/main/java/com/github/mvysny/kaributesting/v10/NpmTemplateParserCopy.java:114-116 | with no usable dependency naming the tag, the first usable one is chosen |
| NpmTemplateParser.ChooseNoTag | karibu-testing-v10/src/main/java/com/github/mvysny/kaributesting/v10/NpmTemplateParserCopy.java:114-116 | with no usable dependency naming the tag, a choice once made is kept |
| NpmTemplateParser.ChooseStep | karibu-testing-v10/src/main/java/com/github/mvysny/kaributesting/v10/NpmTemplateParserCopy.java:97-120 | one loop iteration: a non-JsModule or sourceless dependency is skipped, one naming the tag ends the loop, any other is kept if nothing was chosen yet |
| NpmTemplateParser.FindSource | karibu-testing-v10/src/main/java/com/github/mvysny/kaributesting/v10/NpmTemplateParserCopy.java:102-110 | a class-path file is used as is; otherwise the statistics' source, read as `getSourcesFromStats` does |
| NpmTemplateParser.Visit | karibu-testing-v10/src/main/java/com/github/mvysny/kaributesting/v10/NpmTemplateParserCopy.java:97-120 | the loop body over one dependency, matching one step of the selection |
| NpmTemplateParser.GetTemplateContent | karibu-testing-v10/src/main/java/com/github/mvysny/kaributesting/v10/NpmTemplateParserCopy.java:79-147 | answers the chosen dependency's URL and source, or the IllegalStateException naming the tag and @JsModule when nothing is chosen; every lookup sees the statistics a read would hold, and the parser ends up holding the old or the re-read statistics |
| PrettyPrintTree.GlyphsFor | karibu-testing-v10/src/main/kotlin/com/github/mvysny/kaributesting/v10/PrettyPrintTree.kt:19-31 | ASCII mode prints with '\|', "\\-- " and "\|-- "; otherwise with '│', "└── " and "├── " |
| PrettyPrintTree.StringBuilder.constructor | karibu-testing-v10/src/main/kotlin/com/github/mvysny/kaributesting/v10/PrettyPrintTree.kt:34 | a new builder is empty |
| PrettyPrintTree.StringBuilder.Append | karibu-testing-v10/src/main/kotlin/com/github/mvysny/kaributesting/v10/PrettyPrintTree.kt:40 | appending adds the text at the end and changes nothing before it |
| PrettyPrintTree.PrintTo | karibu-testing-v10/src/main/kotlin/com/github/mvysny/kaributesting/v10/PrettyPrintTree.kt:39-48 | the private `print(sb, prefix, isTail)` appends exactly the node's line followed by its children's subtrees, all but the last as inner branches and the last as the tail, each under the prefix grown by four spaces or by the pipe and three spaces |
| PrettyPrintTree.Print | karibu-testing-v10/src/main/kotlin/com/github/mvysny/kaributesting/v10/PrettyPrintTree.kt:33-37 | `print()` is the rendering of the root as a tail with an empty prefix |
| PrettyPrintTree.NewlinesAppend | karibu-testing-v10/src/main/kotlin/com/github/mvysny/kaributesting/v10/PrettyPrintTree.kt:40 | line breaks of concatenated text add up |
| PrettyPrintTree.NoNewlines | karibu-testing-v10/src/main/kotlin/com/github/mvysny/kaributesting/v10/PrettyPrintTree.kt:40 | text without a line-break character has no line breaks |
| PrettyPrintTree.LineHasOneNewline | karibu-testing-v10/src/main/kotlin/com/github/mvysny/kaributesting/v10/PrettyPrintTree.kt:40 | each node's line, built from single-line glyphs, prefix and name, holds exactly one line break |
| PrettyPrintTree.RenderLines | karibu-testing-v10/src/main/kotlin/com/github/mvysny/kaributesting/v10/PrettyPrintTree.kt:39-48 | a subtree of single-line names renders as exactly one line per node |
| PrettyPrintTree.InnerLines | karibu-testing-v10/src/main/kotlin/com/github/mvysny/kaributesting/v10/PrettyPrintTree.kt:41-43 | the inner children together render as one line per node of theirs |
| PrettyPrintTree.PrintSpec | karibu-testing-v10/src/main/kotlin/com/github/mvysny/kaributesting/v10/PrettyPrintTree.kt:33-48 | `print()` emits one line per node, and the first is the tail branch followed by the root's name |
| PrettyPrintTree.AsciiRender | karibu-testing-v10/src/main/kotlin/com/github/mvysny/kaributesting/v10/PrettyPrintTree.kt:17-31 | in ASCII mode a tree of ASCII names prints as pure ASCII, at any prefix |
| PrettyPrintTree.AsciiInner | karibu-testing-v10/src/main/kotlin/com/github/mvysny/kaributesting/v10/PrettyPrintTree.kt:41-43 | in ASCII mode the inner children of a node print as pure ASCII |
| PrettyPrintTree.UnicodeRootLine | karibu-testing-v10/src/main/kotlin/com/github/mvysny/kaributesting/v10/PrettyPrintTree.kt:29-35 | by default the output is not ASCII: the root's line starts with the box-drawing tail |
| MockVaadin.Wrap | karibu-testing-v10/src/main/kotlin/com/github/mvysny/kaributesting/v10/MockVaadin.kt:298-303 | the collecting handler records an ExecutionException with the throwable's message |
| MockVaadin.Failures | karibu-testing-v10/src/main/kotlin/com/github/mvysny/kaributesting/v10/MockVaadin.kt:297-309 | a queue run cannot fail more often than it has commands |
| MockVaadin.WrapAll | karibu-testing-v10/src/main/kotlin/com/github/mvysny/kaributesting/v10/MockVaadin.kt:297-304 | every collected failure, in order, is the corresponding throwable wrapped |
| MockVaadin.NoFailures | karibu-testing-v10/src/main/kotlin/com/github/mvysny/kaributesting/v10/MockVaadin.kt:316-319 | a queue whose commands all complete reports no failure |
| MockVaadin.FailuresAreThrown | karibu-testing-v10/src/main/kotlin/com/github/mvysny/kaributesting/v10/MockVaadin.kt:297-304 | a throwable is collected iff a queued command throws it |
| MockVaadin.RunUIQueue | karibu-testing-v10/src/main/kotlin/com/github/mvysny/kaributesting/v10/MockVaadin.kt:291-320 | unless exceptions are to be propagated to a custom handler, the failures are collected wrapped and the first is thrown with the others suppressed, nothing when there are none; with a propagating custom handler it receives them and nothing is thrown; either way the queue is emptied and the old handler restored |
| MockVaadin.RunUIQueueLosesNothing | karibu-testing-v10/src/main/kotlin/com/github/mvysny/kaributesting/v10/MockVaadin.kt:291-320 | every failing command's throwable reaches either the thrown failure or the custom handler |
| MockVaadin.Environment.constructor | karibu-testing-v10/src/main/kotlin/com/github/mvysny/kaributesting/v10/MockVaadin.kt:23-27 | a thread on which nothing is mocked: no service, session, UI, request, response or last navigation, and the closing flag down |
| MockVaadin.Environment.CloseCurrentUI | karibu-testing-v10/src/main/kotlin/com/github/mvysny/kaributesting/v10/MockVaadin.kt:99-110 | with no current UI nothing changes; otherwise its location becomes the last navigation, the detach fires iff asked for, the UI is no longer current, and nothing else changes |
| MockVaadin.Environment.CloseCurrentSessionAsWritten | karibu-testing-v10/src/main/kotlin/com/github/mvysny/kaributesting/v10/MockVaadin.kt:139-151 | with a session: the destroy event fires, the session stops being current, the queue runs; the closing flag stays raised exactly when the run fails |
| MockVaadin.Environment.CloseCurrentSession | karibu-testing-v10/src/main/kotlin/com/github/mvysny/kaributesting/v10/MockVaadin.kt:139-151 | the corrected close: the same, with the closing flag set to false after the queue run however it ends, as a `finally` would |
| MockVaadin.Environment.ClearVaadinInstances | karibu-testing-v10/src/main/kotlin/com/github/mvysny/kaributesting/v10/MockVaadin.kt:130-137 | the UI and session are no longer current; the request and response are forgotten unless the queue run fails; as written, a failing run leaves the closing flag raised and a passing one leaves it lowered |
| MockVaadin.Environment.TearDown | karibu-testing-v10/src/main/kotlin/com/github/mvysny/kaributesting/v10/MockVaadin.kt:120-128 | a run that does not fail leaves nothing current; it fails exactly when the session's queue holds a throwing command, leaving the closing flag raised; on a thread already torn down it changes nothing and does not fail, so it is safe to repeat |
| MockVaadin.Environment.CreateUI | karibu-testing-v10/src/main/kotlin/com/github/mvysny/kaributesting/v10/MockVaadin.kt:206-242 | needs a current request; rejects a UI already attached to a session; otherwise attaches the UI and makes it current, fires its init, and navigates to the remembered location (forgetting it) or else to the root route when there is one |
| MockVaadin.Environment.CreateSession | karibu-testing-v10/src/main/kotlin/com/github/mvysny/kaributesting/v10/MockVaadin.kt:164-204 | needs a current service; makes a request current; fails unless the new session's lock is present and held; otherwise makes a fresh session and a response current and creates the UI |
| MockVaadin.Environment.Setup | karibu-testing-v10/src/main/kotlin/com/github/mvysny/kaributesting/v10/MockVaadin.kt:77-93 | makes the service current; with a held lock and a fresh UI, a new session and UI are current; a missing or free lock fails |
| MockVaadin.Environment.AfterSessionClose | karibu-testing-v10/src/main/kotlin/com/github/mvysny/kaributesting/v10/MockVaadin.kt:329-355 | does nothing while a session is being closed on the thread; otherwise clears everything and creates a fresh session and UI; a throwing queue command makes it fail and leaves the flag raised |
| MockVaadin.StuckClosingFlag | karibu-testing-v10/src/main/kotlin/com/github/mvysny/kaributesting/v10/MockVaadin.kt:146-148 | as written, `tearDown` with a throwing queued command fails and leaves the closing flag raised, after which `afterSessionClose` creates no session |
| MockVaadin.ClosingFlagRestored | karibu-testing-v10/src/main/kotlin/com/github/mvysny/kaributesting/v10/MockVaadin.kt:146-148 | with the corrected close, the same failure leaves the flag down and the next session close is followed by a fresh session |
| MockHttpEnvironment.Lookup | mock-servlet-environment5/src/main/kotlin/com/github/mvysny/kaributesting/mockhttp/MockHttpEnvironment.kt:14 | a map read answers the stored value iff the key is present, null otherwise |
| MockHttpEnvironment.PutOrRemove | mock-servlet-environment5/src/main/kotlin/com/github/mvysny/kaributesting/mockhttp/MockHttpEnvironment.kt:23-25 | afterwards the key reads as the given value (absent for null), every other key reads as before, and the key set grows or shrinks by that key |
| MockHttpEnvironment.PutOrRemoveOverwrites | mock-servlet-environment5/src/main/kotlin/com/github/mvysny/kaributesting/mockhttp/MockHttpEnvironment.kt:23-25 | a second `putOrRemove` of the same key wipes out the first |
| MockHttpEnvironment.FirstValue | mock-servlet-environment/src/main/kotlin/com/github/mvysny/kaributesting/mockhttp/MockRequest.kt:192 | `m[name]?.get(0)`: null iff the name is absent, an index failure iff its list is empty, otherwise the list's first value |
| MockHttpEnvironment.MockServletConfig.constructor | mock-servlet-environment5/src/main/kotlin/com/github/mvysny/kaributesting/mockhttp/MockHttpEnvironment.kt:7-12 | a config of the given context, with no servlet init parameters |
| MockHttpEnvironment.MockServletConfig.GetInitParameter | mock-servlet-environment5/src/main/kotlin/com/github/mvysny/kaributesting/mockhttp/MockHttpEnvironment.kt:14 | the servlet init parameter's value, null when it is not set |
| MockHttpEnvironment.MockServletConfig.GetInitParameterNames | mock-servlet-environment5/src/main/kotlin/com/github/mvysny/kaributesting/mockhttp/MockHttpEnvironment.kt:16 | exactly the names whose init parameter is set |
| MockHttpEnvironment.Environment.constructor | mock-servlet-environment5/src/main/kotlin/com/github/mvysny/kaributesting/mockhttp/MockHttpEnvironment.kt:27-73 | the defaults: ports 8080, remote address 127.0.0.1, no auth type, not secure, lenient session validity checks |
| MockHttpSessions.CheckValid | mock-servlet-environment5/src/main/kotlin/com/github/mvysny/kaributesting/mockhttp/MockHttpSession.kt:125-129 | `checkValid` fails iff the session is invalidated and checks are strict |
| MockHttpSessions.IdsDistinct | mock-servlet-environment5/src/main/kotlin/com/github/mvysny/kaributesting/mockhttp/MockHttpSession.kt:135-143 | ids drawn from the 32-bit counter fewer than 2^32 draws apart differ |
| MockHttpSessions.SessionIdGenerator.constructor | mock-servlet-environment5/src/main/kotlin/com/github/mvysny/kaributesting/mockhttp/MockHttpSession.kt:135 | a new counter has drawn nothing |
| MockHttpSessions.SessionIdGenerator.Generate | mock-servlet-environment5/src/main/kotlin/com/github/mvysny/kaributesting/mockhttp/MockHttpSession.kt:143 | `generateSessionId` increments the counter, wrapping at 32 bits, and answers the new value's decimal rendering |
| MockHttpSessions.MockHttpSession.constructor | mock-servlet-environment5/src/main/kotlin/com/github/mvysny/kaributesting/mockhttp/MockHttpSession.kt:17-25 | a session with the given id, context, creation time and interval, no attributes, and valid |
| MockHttpSessions.MockHttpSession.Create | mock-servlet-environment5/src/main/kotlin/com/github/mvysny/kaributesting/mockhttp/MockHttpSession.kt:136-142 | `create(ctx)` draws a fresh id and makes a valid, empty session of 30 minutes created now |
| MockHttpSessions.MockHttpSession.CopyOf | mock-servlet-environment5/src/main/kotlin/com/github/mvysny/kaributesting/mockhttp/MockHttpSession.kt:29-31 | the copying constructor takes the other session's id, context, interval and every attribute; reading its last-access time fails on an invalidated session under strict checks |
| MockHttpSessions.MockHttpSession.Destroy | mock-servlet-environment5/src/main/kotlin/com/github/mvysny/kaributesting/mockhttp/MockHttpSession.kt:33-35 | `destroy` empties the attributes and changes nothing else |
| MockHttpSessions.MockHttpSession.GetCreationTime | mock-servlet-environment5/src/main/kotlin/com/github/mvysny/kaributesting/mockhttp/MockHttpSession.kt:37-40 | the creation time, failing iff `checkValid` fails |
| MockHttpSessions.MockHttpSession.GetLastAccessedTime | mock-servlet-environment5/src/main/kotlin/com/github/mvysny/kaributesting/mockhttp/MockHttpSession.kt:44-47 | always 0, failing iff `checkValid` fails |
| MockHttpSessions.MockHttpSession.SetMaxInactiveInterval | mock-servlet-environment5/src/main/kotlin/com/github/mvysny/kaributesting/mockhttp/MockHttpSession.kt:51-53 | sets the interval without a validity check and changes nothing else |
| MockHttpSessions.MockHttpSession.GetAttribute | mock-servlet-environment5/src/main/kotlin/com/github/mvysny/kaributesting/mockhttp/MockHttpSession.kt:60-69 | the attribute's value, null when absent, failing iff the session is invalidated and checks are strict |
| MockHttpSessions.MockHttpSession.GetAttributeNames | mock-servlet-environment5/src/main/kotlin/com/github/mvysny/kaributesting/mockhttp/MockHttpSession.kt:74-77 | exactly the names with a value, failing like `getAttribute` |
| MockHttpSessions.MockHttpSession.SetAttribute | mock-servlet-environment5/src/main/kotlin/com/github/mvysny/kaributesting/mockhttp/MockHttpSession.kt:82-91 | fails exactly as `checkValid` does, changing nothing; otherwise a null value removes the attribute and any other value replaces it, other attributes unchanged |
| MockHttpSessions.MockHttpSession.RemoveAttribute | mock-servlet-environment5/src/main/kotlin/com/github/mvysny/kaributesting/mockhttp/MockHttpSession.kt:98-101 | fails exactly as `checkValid` does, changing nothing; otherwise only that attribute goes |
| MockHttpSessions.MockHttpSession.CopyAttributes | mock-servlet-environment5/src/main/kotlin/com/github/mvysny/kaributesting/mockhttp/MockHttpSession.kt:108-113 | every attribute of the other session is copied over, overriding same-named ones and keeping the rest; listing an invalidated session under strict checks fails before anything is copied |
| MockHttpSessions.MockHttpSession.Invalidate | mock-servlet-environment5/src/main/kotlin/com/github/mvysny/kaributesting/mockhttp/MockHttpSession.kt:115-118 | the session ends invalidated; invalidating twice fails only under strict checks |
| MockHttpSessions.MockHttpSession.IsNew | mock-servlet-environment5/src/main/kotlin/com/github/mvysny/kaributesting/mockhttp/MockHttpSession.kt:120-123 | never new, failing iff `checkValid` fails |
| MockHttpSessions.MockHttpSession.ChangeSessionId | mock-servlet-environment5/src/main/kotlin/com/github/mvysny/kaributesting/mockhttp/MockHttpSession.kt:146-149 | the session takes a newly drawn id, different from every id drawn in the last 2^32 draws, and keeps its attributes and validity |
| SessionAttributeMaps.SessionAttributeMap.constructor | mock-servlet-environment/src/main/kotlin/com/github/mvysny/kaributesting/mockhttp/SessionAttributeMap.kt:66-68 | the view is over the given session |
| SessionAttributeMaps.SessionAttributeMap.Get | mock-servlet-environment/src/main/kotlin/com/github/mvysny/kaributesting/mockhttp/SessionAttributeMap.kt:70 | `get` reads the session attribute, failing as the session's `getAttribute` does |
| SessionAttributeMaps.SessionAttributeMap.ContainsKey | mock-servlet-environment/src/main/kotlin/com/github/mvysny/kaributesting/mockhttp/SessionAttributeMap.kt:93 | holds iff the attribute is non-null |
| SessionAttributeMaps.SessionAttributeMap.IsEmpty | mock-servlet-environment/src/main/kotlin/com/github/mvysny/kaributesting/mockhttp/SessionAttributeMap.kt:91 | holds iff the session has no attributes |
| SessionAttributeMaps.SessionAttributeMap.Size | mock-servlet-environment/src/main/kotlin/com/github/mvysny/kaributesting/mockhttp/SessionAttributeMap.kt:38-39 | the number of attributes |
| SessionAttributeMaps.SessionAttributeMap.ContainsEntry | mock-servlet-environment/src/main/kotlin/com/github/mvysny/kaributesting/mockhttp/SessionAttributeMap.kt:62-63 | holds iff the session stores exactly that value under that key |
| SessionAttributeMaps.SessionAttributeMap.Put | mock-servlet-environment/src/main/kotlin/com/github/mvysny/kaributesting/mockhttp/SessionAttributeMap.kt:72-76 | answers the previous value and stores the new one, other attributes unchanged |
| SessionAttributeMaps.SessionAttributeMap.Remove | mock-servlet-environment/src/main/kotlin/com/github/mvysny/kaributesting/mockhttp/SessionAttributeMap.kt:78-82 | answers the previous value and deletes only that key |
| SessionAttributeMaps.SessionAttributeMap.RemoveIfEquals | mock-servlet-environment/src/main/kotlin/com/github/mvysny/kaributesting/mockhttp/SessionAttributeMap.kt:84-89 | deletes the key and answers true iff its current value equals the one given; otherwise nothing changes |
| SessionAttributeMaps.SessionAttributeMap.AddEntry | mock-servlet-environment/src/main/kotlin/com/github/mvysny/kaributesting/mockhttp/SessionAttributeMap.kt:43-49 | stores the value and answers true iff that changed what was stored |
| SessionAttributeMaps.SessionAttributeMap.RemoveEntry | mock-servlet-environment/src/main/kotlin/com/github/mvysny/kaributesting/mockhttp/SessionAttributeMap.kt:54-60 | deletes the key and answers true iff the entry was contained |
| SessionAttributeMaps.ListOf | mock-servlet-environment/src/main/kotlin/com/github/mvysny/kaributesting/mockhttp/SessionAttributeMap.kt:17 | `attributeNames.toList()`: each name exactly once |
| SessionAttributeMaps.EntryIterator.Create | mock-servlet-environment/src/main/kotlin/com/github/mvysny/kaributesting/mockhttp/SessionAttributeMap.kt:13-18 | the iterator visits every attribute name once, with nothing returned yet |
| SessionAttributeMaps.EntryIterator.Init | mock-servlet-environment/src/main/kotlin/com/github/mvysny/kaributesting/mockhttp/SessionAttributeMap.kt:13-18 | the snapshot of names and no last name |
| SessionAttributeMaps.EntryIterator.Next | mock-servlet-environment/src/main/kotlin/com/github/mvysny/kaributesting/mockhttp/SessionAttributeMap.kt:22-28 | with names left, moves to the next one, remembers it and answers it with its current value; with none, fails with NoSuchElement |
| SessionAttributeMaps.EntryIterator.Remove | mock-servlet-environment/src/main/kotlin/com/github/mvysny/kaributesting/mockhttp/SessionAttributeMap.kt:30-34 | fails without a preceding `next`; otherwise deletes the last returned key and forgets it, so a second `remove` fails |
| MockResponses.SendError | mock-servlet-environment5/src/main/kotlin/com/github/mvysny/kaributesting/mockhttp/MockResponse.kt:62-64 | `sendError(sc)` always fails with "The app requests a failure: " and the status code |
| MockResponses.SendErrorWithMessage | mock-servlet-environment5/src/main/kotlin/com/github/mvysny/kaributesting/mockhttp/MockResponse.kt:58-60 | `sendError(sc, msg)` always fails, with the same text followed by a space and the message (`null` when absent) |
| MockResponses.FindCookie | mock-servlet-environment5/src/main/kotlin/com/github/mvysny/kaributesting/mockhttp/MockResponse.kt:34 | null iff no cookie has the name; otherwise the earliest cookie with that name |
| MockResponses.GetCookie | mock-servlet-environment5/src/main/kotlin/com/github/mvysny/kaributesting/mockhttp/MockResponse.kt:30-32 | succeeds iff a cookie has the name, answering `findCookie`'s cookie; otherwise fails listing every cookie as name=value |
| MockResponses.FindCookieKeepsFirst | mock-servlet-environment5/src/main/kotlin/com/github/mvysny/kaributesting/mockhttp/MockResponse.kt:26-34 | adding a cookie never hides an earlier one of the same name |
| MockResponses.ValuesOf | mock-servlet-environment5/src/main/kotlin/com/github/mvysny/kaributesting/mockhttp/MockResponse.kt:83 | a header's values, empty when it is absent |
| MockResponses.MockResponse.constructor | mock-servlet-environment5/src/main/kotlin/com/github/mvysny/kaributesting/mockhttp/MockResponse.kt:18-127 | no headers or cookies; buffer 4096, locale en_US, encoding ISO-8859-1, status 200, no content type |
| MockResponses.MockResponse.GetHeader | mock-servlet-environment5/src/main/kotlin/com/github/mvysny/kaributesting/mockhttp/MockResponse.kt:125 | the header's first value, null iff the header is absent; never fails on headers the response stored itself |
| MockResponses.MockResponse.GetHeaders | mock-servlet-environment5/src/main/kotlin/com/github/mvysny/kaributesting/mockhttp/MockResponse.kt:83 | every value of the header, empty when it is absent |
| MockResponses.MockResponse.GetHeaderNames | mock-servlet-environment5/src/main/kotlin/com/github/mvysny/kaributesting/mockhttp/MockResponse.kt:141 | exactly the names `containsHeader` accepts |
| MockResponses.MockResponse.AddHeader | mock-servlet-environment5/src/main/kotlin/com/github/mvysny/kaributesting/mockhttp/MockResponse.kt:85-87 | appends the value to the header's values; the first value stays what `getHeader` answers; other headers and fields unchanged |
| MockResponses.MockResponse.SetHeader | mock-servlet-environment5/src/main/kotlin/com/github/mvysny/kaributesting/mockhttp/MockResponse.kt:143-145 | the value becomes the header's only value; other headers unchanged |
| MockResponses.MockResponse.AddIntHeader | mock-servlet-environment5/src/main/kotlin/com/github/mvysny/kaributesting/mockhttp/MockResponse.kt:20-22 | appends the number's decimal rendering, as `addHeader` does |
| MockResponses.MockResponse.SetIntHeader | mock-servlet-environment5/src/main/kotlin/com/github/mvysny/kaributesting/mockhttp/MockResponse.kt:137-139 | the number's decimal rendering becomes the header's only value |
| MockResponses.MockResponse.AddCookie | mock-servlet-environment5/src/main/kotlin/com/github/mvysny/kaributesting/mockhttp/MockResponse.kt:26-28 | appends the cookie; nothing else changes |
| MockResponses.MockResponse.SetStatus | mock-servlet-environment5/src/main/kotlin/com/github/mvysny/kaributesting/mockhttp/MockResponse.kt:116-123 | the status becomes the code; the message is ignored |
| MockResponses.MockResponse.SetBufferSize | mock-servlet-environment5/src/main/kotlin/com/github/mvysny/kaributesting/mockhttp/MockResponse.kt:50-52 | the buffer size becomes the given size |
| MockResponses.MockResponse.SetCharacterEncoding | mock-servlet-environment5/src/main/kotlin/com/github/mvysny/kaributesting/mockhttp/MockResponse.kt:71-73 | the encoding becomes the given charset |
| MockResponses.MockResponse.SetLocale | mock-servlet-environment5/src/main/kotlin/com/github/mvysny/kaributesting/mockhttp/MockResponse.kt:79-81 | the locale becomes the given one |
| MockResponses.MockResponse.SetContentType | mock-servlet-environment5/src/main/kotlin/com/github/mvysny/kaributesting/mockhttp/MockResponse.kt:151-153 | the content type becomes the given one; null clears it |
| MockRequests.ParseInt | mock-servlet-environment/src/main/kotlin/com/github/mvysny/kaributesting/mockhttp/MockRequest.kt:117 | Kotlin's `toInt` accepts only non-empty text |
| MockRequests.ParseIntToString | mock-servlet-environment/src/main/kotlin/com/github/mvysny/kaributesting/mockhttp/MockRequest.kt:117 | parsing the decimal rendering of any 32-bit `Int` gives it back |
| MockRequests.ParseIntRejectsNonDigit | mock-servlet-environment/src/main/kotlin/com/github/mvysny/kaributesting/mockhttp/MockRequest.kt:117 | text with a character that is neither a leading sign nor a digit does not parse |
| MockRequests.MockRequest.constructor | mock-servlet-environment/src/main/kotlin/com/github/mvysny/kaributesting/mockhttp/MockRequest.kt:10-190 | a request of the given session: only the user-agent header, set to the default value; no parameters, cookies, parts or attributes |
| MockRequests.MockRequest.GetParameterValues | mock-servlet-environment/src/main/kotlin/com/github/mvysny/kaributesting/mockhttp/MockRequest.kt:36 | the parameter's values, null iff it is not set |
| MockRequests.MockRequest.GetParameter | mock-servlet-environment/src/main/kotlin/com/github/mvysny/kaributesting/mockhttp/MockRequest.kt:208 | null iff the parameter is not set; an index failure iff it has no values; otherwise its first value |
| MockRequests.MockRequest.SetParameter | mock-servlet-environment/src/main/kotlin/com/github/mvysny/kaributesting/mockhttp/MockRequest.kt:218-220 | the values replace the parameter's values, so `getParameter` answers the first of them; nothing else changes |
| MockRequests.MockRequest.GetParameterNames | mock-servlet-environment/src/main/kotlin/com/github/mvysny/kaributesting/mockhttp/MockRequest.kt:107 | exactly the names of the set parameters |
| MockRequests.MockRequest.GetHeader | mock-servlet-environment/src/main/kotlin/com/github/mvysny/kaributesting/mockhttp/MockRequest.kt:192 | null iff the header is absent; an index failure iff it has no values; otherwise its first value |
| MockRequests.MockRequest.GetHeaders | mock-servlet-environment/src/main/kotlin/com/github/mvysny/kaributesting/mockhttp/MockRequest.kt:164-167 | the header's values, empty when it is absent |
| MockRequests.MockRequest.GetHeaderNames | mock-servlet-environment/src/main/kotlin/com/github/mvysny/kaributesting/mockhttp/MockRequest.kt:198 | exactly the names of the present headers |
| MockRequests.MockRequest.GetIntHeader | mock-servlet-environment/src/main/kotlin/com/github/mvysny/kaributesting/mockhttp/MockRequest.kt:117 | -1 when the header is absent; otherwise succeeds iff the first value parses, and answers n for the rendering of any `Int` n |
| MockRequests.MockRequest.AddCookie | mock-servlet-environment/src/main/kotlin/com/github/mvysny/kaributesting/mockhttp/MockRequest.kt:143-148 | the first call creates the cookie array; every call appends the cookie |
| MockRequests.MockRequest.GetPart | mock-servlet-environment/src/main/kotlin/com/github/mvysny/kaributesting/mockhttp/MockRequest.kt:76-79 | fails iff no multi-part configuration exists; otherwise the first part with the name, null iff no part has it |
| MockRequests.MockRequest.GetParts | mock-servlet-environment/src/main/kotlin/com/github/mvysny/kaributesting/mockhttp/MockRequest.kt:93-95 | fails as `getPart` does iff no multi-part configuration exists; otherwise the parts |
| MockRequests.MockRequest.GetAttribute | mock-servlet-environment/src/main/kotlin/com/github/mvysny/kaributesting/mockhttp/MockRequest.kt:202 | the attribute's value, null iff it is absent |
| MockRequests.MockRequest.SetAttribute | mock-servlet-environment/src/main/kotlin/com/github/mvysny/kaributesting/mockhttp/MockRequest.kt:204-206 | a null value removes the attribute, another replaces it; other state unchanged |
| MockRequests.MockRequest.RemoveAttribute | mock-servlet-environment/src/main/kotlin/com/github/mvysny/kaributesting/mockhttp/MockRequest.kt:181-183 | only that attribute goes |
| MockRequests.MockRequest.SetCharacterEncoding | mock-servlet-environment/src/main/kotlin/com/github/mvysny/kaributesting/mockhttp/MockRequest.kt:30-32 | records the encoding |
| MockRequests.MockRequest.GetRequestedSessionId | mock-servlet-environment/src/main/kotlin/com/github/mvysny/kaributesting/mockhttp/MockRequest.kt:56 | the id of the request's session as it is now |
| MockRequests.MockRequest.Ports | mock-servlet-environment/src/main/kotlin/com/github/mvysny/kaributesting/mockhttp/MockRequest.kt:54-83 | the server, local and remote ports are the environment's current settings |
| MockContexts.GetMimeType | mock-servlet-environment5/src/main/kotlin/com/github/mvysny/kaributesting/mockhttp/MockContext.kt:133 | the guessed type from the file name, or application/octet-stream when there is no guess |
| MockContexts.MockContext.constructor | mock-servlet-environment5/src/main/kotlin/com/github/mvysny/kaributesting/mockhttp/MockContext.kt:158-228 | no init parameters or attributes, session timeout 30, no request or response encoding |
| MockContexts.MockContext.GetInitParameter | mock-servlet-environment5/src/main/kotlin/com/github/mvysny/kaributesting/mockhttp/MockContext.kt:160 | the init parameter's value, null iff it is not set |
| MockContexts.MockContext.GetInitParameterNames | mock-servlet-environment5/src/main/kotlin/com/github/mvysny/kaributesting/mockhttp/MockContext.kt:267 | exactly the names of the set init parameters |
| MockContexts.MockContext.SetInitParameter | mock-servlet-environment5/src/main/kotlin/com/github/mvysny/kaributesting/mockhttp/MockContext.kt:116 | stores the value and answers true iff the parameter was not set; an existing value is kept |
| MockContexts.MockContext.GetAttribute | mock-servlet-environment5/src/main/kotlin/com/github/mvysny/kaributesting/mockhttp/MockContext.kt:230 | the attribute's value, null iff it is absent |
| MockContexts.MockContext.GetAttributeNames | mock-servlet-environment5/src/main/kotlin/com/github/mvysny/kaributesting/mockhttp/MockContext.kt:91 | exactly the names of the present attributes |
| MockContexts.MockContext.SetAttribute | mock-servlet-environment5/src/main/kotlin/com/github/mvysny/kaributesting/mockhttp/MockContext.kt:232-234 | a null value removes the attribute, another replaces it; other attributes unchanged |
| MockContexts.MockContext.RemoveAttribute | mock-servlet-environment5/src/main/kotlin/com/github/mvysny/kaributesting/mockhttp/MockContext.kt:168-170 | only that attribute goes |
| MockContexts.MockContext.SetSessionTimeout | mock-servlet-environment5/src/main/kotlin/com/github/mvysny/kaributesting/mockhttp/MockContext.kt:196-202 | `getSessionTimeout` answers the new value; nothing else changes |
| MockContexts.MockContext.SetRequestCharacterEncoding | mock-servlet-environment5/src/main/kotlin/com/github/mvysny/kaributesting/mockhttp/MockContext.kt:204-210 | the request encoding becomes the given one, the response encoding stays |
| MockContexts.MockContext.SetResponseCharacterEncoding | mock-servlet-environment5/src/main/kotlin/com/github/mvysny/kaributesting/mockhttp/MockContext.kt:212-218 | the response encoding becomes the given one, the request encoding stays |
| MockContexts.SetInitParameterTwice | mock-servlet-environment5/src/main/kotlin/com/github/mvysny/kaributesting/mockhttp/MockContext.kt:116 | a second `setInitParameter` of the same name answers false and leaves the first value in place |
| NpmTemplateParser.ReadSettles | karibu-testing-v10/src/main/java/com/github/mvysny/kaributesting/v10/NpmTemplateParserCopy.java:202-224 | `isStatsFileReadNeeded` holds without statistics; after statistics with the current hash are read, no further read is needed; with a bundle file none is needed once statistics are held |

## Left out

- Laziness. `find` and the grid row sequences are Kotlin sequences. Here they are finite lists computed in full. Where every part of a walk succeeds, the order and contents are the same.
- Grids.Rows, Grids.Fetch, Grids.Get, Grids.GetOrNull: a tree grid's rows are walked in full before the window is taken. The program walks lazily (`_rowSequence`, Grid.kt:851-869) and stops at the requested window. So a negative child count under an expanded node after the window fails here but not in the program.
- Threads and locks. `MockVaadin` keeps its state in `ThreadLocal`s; here it is the state of one thread. The session lock is a present/held flag.
- Framework calls. Listener bodies, `UI.doInit`, router navigation, `Page.reload` and the testing lifecycle hooks are not modelled. The environment records the events it fires and the location it navigates to.
- The Vaadin version checks in `setup` and the servlet initialisation are not modelled. They depend on the class path.
- The PolymerTemplate deprecation warning and all logging are left out.
- BundleParser and Jsoup parse the chosen template into an element. Here the answer is the chosen URL and source. The parsing is not part of this model.
- `getResource`, `getResourceAsStream` and `getRealPath` of the context are not modelled. They read files.
- Methods that only throw `UnsupportedOperationException` are not modelled. Neither are the deprecated session aliases `getValue`, `putValue`, `removeValue` and `getValueNames`, which call the modelled attribute methods. The deprecated `setStatus(sc, sm)` is covered by `SetStatus`, which ignores the message.
- `encodeURL` and `encodeRedirectURL` return their argument unchanged and are not modelled.
- Request parts are modelled by name only; their contents are not modelled.
- Locales are strings.
- Kotlin's `toInt()` also accepts non-ASCII Unicode digits. The model accepts only ASCII digits.
- Text is lower-cased and compared case-insensitively for ASCII letters only.
- The `SessionAttributeMap` of the older servlet environment is modelled over the jakarta `MockHttpSession`. The javax session's `checkValid` (mock-servlet-environment/src/main/kotlin/com/github/mvysny/kaributesting/mockhttp/MockHttpSession.kt:105-107) fails on every invalidated session. The jakarta one fails only under `strictSessionValidityChecks`, which is off by default. The map therefore behaves as the javax one only with `strict` set to true.
- `SearchSpecJ.withLabel`, `withIcon` and `withEnabled` set fields that the `SearchSpec` of Locator.kt does not declare. They are left out.
- A spec's `value` criterion compares the value's string form.
- `GridContextMenu` opening, dynamic content and the menu's `setOpened` are not modelled. Neither are `navigateTo` and the routes' class-path scan.
- The data communicator's key mapper and caches are not modelled. A grid's rows come straight from its provider.
- Renderers.RenderTemplate: the result is tied to replacing each provider's placeholder in order, and the general case of placeholders that no provider matches is proved only when the template holds none of the providers' placeholders (`Renderers.RenderWithoutPlaceholders`).

## Findings

| source | as written | input that shows it | evidently intended | confidence | as-written member | corrected member |
|---|---|---|---|---|---|---|
| karibu-testing-v10/src/main/kotlin/com/github/mvysny/kaributesting/v10/MockVaadin.kt:146-148 | `closeCurrentSession` raises `currentlyClosingSession`, runs the UI queue, then lowers the flag. There is no `try`/`finally`, so a throwing queue run leaves the flag raised. | A current session whose access queue holds a command that throws. `tearDown()` rethrows the failure and the flag stays true. On that thread every later `afterSessionClose` then does nothing, so a logout no longer yields a fresh session. | The flag is lowered however the queue run ends, as `runUIQueue` does for the error handler. | not executed | MockVaadin.StuckClosingFlag | MockVaadin.ClosingFlagRestored |

The lifecycle methods (`ClearVaadinInstances`, `TearDown`, `AfterSessionClose`) model the code as written. The corrected close is `MockVaadin.Environment.CloseCurrentSession`.
