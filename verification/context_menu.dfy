/**
 * Clicking menu items (ContextMenu.kt): the parent map built over a menu's
 * item tree, the visibility and enablement checks that climb it, and the
 * click itself, which toggles a checkable item before the click event
 * fires. Menu items are objects in the source; here an item's `id`
 * stands for its identity.
 */
module ContextMenus {
  import opened Wrappers

  /** A menu item with its sub-menu's items. */
  datatype MenuItem = MenuItem(
    id: nat,
    text: string,
    visible: bool,
    enabled: bool,
    checkable: bool,
    checked: bool,
    children: seq<MenuItem>)

  /**
   * The component owning the top-level items: a `ContextMenu` or
   * `GridContextMenu` (with its target's effective visibility, None when it
   * has no target), or any other `HasMenuItems` such as a `MenuBar`.
   */
  datatype Owner =
    | ContextMenuOwner(grid: bool, target: Option<bool>)
    | OtherOwner(effectivelyVisible: bool, enabled: bool)

  /** A value of the parent map: the parent item, or the menu component itself. */
  datatype Parent = ItemParent(id: nat) | MenuParent

  /** Why a click is refused. */
  datatype ClickFailure =
    | NoMatch              // "No menu item with … in this menu"
    | NotInMenu            // "… is not contained in this menu"
    | NotVisible           // "… is not visible"
    | ParentNotVisible     // "… is not visible because its parent item is not visible"
    | TargetNotAttached    // "The context menu … is not attached to any component"
    | AttachedToInvisible  // "Cannot click … since it's attached to … which is not effectively visible"
    | NotEnabled           // "… is not enabled"
    | ParentNotEnabled     // "… is not enabled because its parent item is not enabled"
    | AttachedToDisabled   // the owner of a MenuBar-like menu is disabled

  /** The click event a listener receives: the item and its `isChecked` at that time. */
  datatype ClickEvent = ClickEvent(id: nat, checked: bool)

  // ---------------------------------------------------------------- the tree

  /** The identities in an item's subtree. */
  function Ids(it: MenuItem): set<nat>
    decreases it, 1
  {
    {it.id} + IdsForest(it.children)
  }

  function IdsForest(cs: seq<MenuItem>): set<nat>
    decreases cs, 0
  {
    if |cs| == 0 then {} else Ids(cs[0]) + IdsForest(cs[1..])
  }

  /** Every item object occurs once in the tree. */
  predicate Unique(it: MenuItem)
    decreases it, 1
  {
    it.id !in IdsForest(it.children) && UniqueForest(it.children)
  }

  predicate UniqueForest(cs: seq<MenuItem>)
    decreases cs, 0
  {
    |cs| == 0 || (Unique(cs[0]) && UniqueForest(cs[1..]) && Ids(cs[0]) !! IdsForest(cs[1..]))
  }

  /** The items of a subtree in pre-order: the item, then each child's subtree. */
  function Items(it: MenuItem): (r: seq<MenuItem>)
    ensures |r| >= 1 && r[0] == it
    decreases it, 1
  {
    [it] + ItemsForest(it.children)
  }

  function ItemsForest(cs: seq<MenuItem>): seq<MenuItem>
    decreases cs, 0
  {
    if |cs| == 0 then [] else Items(cs[0]) + ItemsForest(cs[1..])
  }

  /** The pre-order list holds exactly the tree's identities. */
  lemma {:induction false} ItemsHaveIds(it: MenuItem)
    ensures forall x :: x in Items(it) ==> x.id in Ids(it)
    ensures forall k :: k in Ids(it) ==> exists x :: x in Items(it) && x.id == k
    decreases it, 1
  {
    ItemsForestHaveIds(it.children);
  }

  lemma {:induction false} ItemsForestHaveIds(cs: seq<MenuItem>)
    ensures forall x :: x in ItemsForest(cs) ==> x.id in IdsForest(cs)
    ensures forall k :: k in IdsForest(cs) ==> exists x :: x in ItemsForest(cs) && x.id == k
    decreases cs, 0
  {
    if |cs| > 0 {
      ItemsHaveIds(cs[0]);
      ItemsForestHaveIds(cs[1..]);
    }
  }

  // ------------------------------------------------------------ parent map

  /** `fillInParentFor(item, parent)`: records the parent, then each sub-item under the item. */
  function Fill(m: map<nat, Parent>, it: MenuItem, p: Parent): map<nat, Parent>
    decreases it, 1
  {
    FillForest(m[it.id := p], it.children, ItemParent(it.id))
  }

  function FillForest(m: map<nat, Parent>, cs: seq<MenuItem>, p: Parent): map<nat, Parent>
    decreases cs, 0
  {
    if |cs| == 0 then m else FillForest(Fill(m, cs[0], p), cs[1..], p)
  }

  /** Each item of the forest is mapped to `p`, and every sub-item to its own parent item. */
  predicate ParentsRecorded(m: map<nat, Parent>, cs: seq<MenuItem>, p: Parent)
    decreases cs, 0
  {
    |cs| == 0 ||
    (cs[0].id in m && m[cs[0].id] == p && ParentsRecordedIn(m, cs[0]) && ParentsRecorded(m, cs[1..], p))
  }

  predicate ParentsRecordedIn(m: map<nat, Parent>, it: MenuItem)
    decreases it, 1
  {
    ParentsRecorded(m, it.children, ItemParent(it.id))
  }

  /** Two maps that agree on a set of keys. */
  predicate AgreeOn(m1: map<nat, Parent>, m2: map<nat, Parent>, keys: set<nat>)
  {
    forall k :: k in keys ==> (k in m1 <==> k in m2) && (k in m1 ==> m1[k] == m2[k])
  }

  lemma {:induction false} RecordedInFrame(m1: map<nat, Parent>, m2: map<nat, Parent>, it: MenuItem)
    requires AgreeOn(m1, m2, Ids(it)) && ParentsRecordedIn(m1, it)
    ensures ParentsRecordedIn(m2, it)
    decreases it, 1
  {
    RecordedFrame(m1, m2, it.children, ItemParent(it.id));
  }

  lemma {:induction false} RecordedFrame(m1: map<nat, Parent>, m2: map<nat, Parent>, cs: seq<MenuItem>, p: Parent)
    requires AgreeOn(m1, m2, IdsForest(cs)) && ParentsRecorded(m1, cs, p)
    ensures ParentsRecorded(m2, cs, p)
    decreases cs, 0
  {
    if |cs| > 0 {
      RecordedInFrame(m1, m2, cs[0]);
      RecordedFrame(m1, m2, cs[1..], p);
    }
  }

  /**
   * Filling in an item adds exactly its subtree's identities, leaves every
   * other entry alone and, when the subtree has no repeated item, records
   * the right parent for each of its items.
   */
  lemma {:induction false} FillSpec(m: map<nat, Parent>, it: MenuItem, p: Parent)
    ensures Fill(m, it, p).Keys == m.Keys + Ids(it)
    ensures forall k :: k in m && k !in Ids(it) ==> Fill(m, it, p)[k] == m[k]
    ensures Unique(it) ==> Fill(m, it, p)[it.id] == p && ParentsRecordedIn(Fill(m, it, p), it)
    decreases it, 1
  {
    FillForestSpec(m[it.id := p], it.children, ItemParent(it.id));
  }

  lemma {:induction false} FillForestSpec(m: map<nat, Parent>, cs: seq<MenuItem>, p: Parent)
    ensures FillForest(m, cs, p).Keys == m.Keys + IdsForest(cs)
    ensures forall k :: k in m && k !in IdsForest(cs) ==> FillForest(m, cs, p)[k] == m[k]
    ensures UniqueForest(cs) ==> ParentsRecorded(FillForest(m, cs, p), cs, p)
    decreases cs, 0
  {
    if |cs| > 0 {
      var m1 := Fill(m, cs[0], p);
      FillSpec(m, cs[0], p);
      FillForestSpec(m1, cs[1..], p);
      var r := FillForest(m1, cs[1..], p);
      assert r == FillForest(m, cs, p);
      if UniqueForest(cs) {
        assert AgreeOn(m1, r, Ids(cs[0]));
        RecordedInFrame(m1, r, cs[0]);
      }
    }
  }

  /** `fillInParentFor` as the source writes it: a recursive walk with a loop over the sub-items. */
  method FillInParentFor(m: map<nat, Parent>, it: MenuItem, p: Parent) returns (r: map<nat, Parent>)
    ensures r == Fill(m, it, p)
    decreases it
  {
    r := m[it.id := p];
    var i := 0;
    while i < |it.children|
      invariant 0 <= i <= |it.children|
      invariant FillForest(r, it.children[i..], ItemParent(it.id)) == Fill(m, it, p)
    {
      assert it.children[i..][0] == it.children[i];
      assert it.children[i..][1..] == it.children[i + 1..];
      r := FillInParentFor(r, it.children[i], ItemParent(it.id));
      i := i + 1;
    }
    assert it.children[i..] == [];
  }

  /**
   * `getParentMap()`: every item of the menu is a key; top-level items map
   * to the menu and sub-items to the item whose sub-menu holds them.
   */
  method GetParentMap(items: seq<MenuItem>) returns (m: map<nat, Parent>)
    ensures m.Keys == IdsForest(items)
    ensures UniqueForest(items) ==> ParentsRecorded(m, items, MenuParent)
  {
    m := map[];
    var i := 0;
    while i < |items|
      invariant 0 <= i <= |items|
      invariant FillForest(m, items[i..], MenuParent) == FillForest(map[], items, MenuParent)
    {
      assert items[i..][0] == items[i];
      assert items[i..][1..] == items[i + 1..];
      m := FillInParentFor(m, items[i], MenuParent);
      i := i + 1;
    }
    assert items[i..] == [];
    FillForestSpec(map[], items, MenuParent);
  }

  // ------------------------------------------------- the chain of ancestors

  /** The item with the identity and its ancestor items, nearest first; None when absent. */
  function LocateIn(it: MenuItem, id: nat): (r: Option<seq<MenuItem>>)
    ensures r.Some? <==> id in Ids(it)
    ensures r.Some? ==> |r.value| >= 1 && r.value[0].id == id && r.value[|r.value| - 1] == it
    decreases it, 1
  {
    if it.id == id then Some([it])
    else match Locate(it.children, id)
      case Some(path) => Some(path + [it])
      case None => None
  }

  function Locate(cs: seq<MenuItem>, id: nat): (r: Option<seq<MenuItem>>)
    ensures r.Some? <==> id in IdsForest(cs)
    ensures r.Some? ==> |r.value| >= 1 && r.value[0].id == id && r.value[|r.value| - 1] in cs
    decreases cs, 0
  {
    if |cs| == 0 then None
    else match LocateIn(cs[0], id)
      case Some(path) => Some(path)
      case None => Locate(cs[1..], id)
  }

  /** Following the parent map from `path[0]` visits the rest of `path`, then reaches `p`. */
  predicate ChainTo(m: map<nat, Parent>, path: seq<MenuItem>, p: Parent)
  {
    && |path| >= 1
    && (forall j :: 0 <= j < |path| - 1 ==> path[j].id in m && m[path[j].id] == ItemParent(path[j + 1].id))
    && path[|path| - 1].id in m && m[path[|path| - 1].id] == p
  }

  /**
   * The located ancestors are what climbing the parent map finds: the checks
   * below walk that chain.
   */
  lemma {:induction false} LocateInFollowsParents(m: map<nat, Parent>, it: MenuItem, p: Parent, id: nat)
    requires it.id in m && m[it.id] == p && ParentsRecordedIn(m, it)
    requires LocateIn(it, id).Some?
    ensures ChainTo(m, LocateIn(it, id).value, p)
    decreases it, 1
  {
    if it.id != id {
      var sub := Locate(it.children, id).value;
      LocateFollowsParents(m, it.children, ItemParent(it.id), id);
      var path := sub + [it];
      assert path == LocateIn(it, id).value;
      forall j | 0 <= j < |path| - 1
        ensures path[j].id in m && m[path[j].id] == ItemParent(path[j + 1].id)
      {
        if j == |sub| - 1 {
          assert path[j + 1] == it;
        } else {
          assert path[j] == sub[j] && path[j + 1] == sub[j + 1];
        }
      }
    }
  }

  lemma {:induction false} LocateFollowsParents(m: map<nat, Parent>, cs: seq<MenuItem>, p: Parent, id: nat)
    requires ParentsRecorded(m, cs, p)
    requires Locate(cs, id).Some?
    ensures ChainTo(m, Locate(cs, id).value, p)
    decreases cs, 0
  {
    if LocateIn(cs[0], id).Some? {
      LocateInFollowsParents(m, cs[0], p, id);
    } else {
      LocateFollowsParents(m, cs[1..], p, id);
    }
  }

  // --------------------------------------------------------------- checks

  /** The owner's part of `checkMenuItemVisible`. */
  function OwnerVisible(owner: Owner): Outcome<ClickFailure>
  {
    match owner
    case ContextMenuOwner(_, target) =>
      if target.None? then Fail(TargetNotAttached)
      else if target.value then Pass else Fail(AttachedToInvisible)
    case OtherOwner(visible, _) =>
      if visible then Pass else Fail(AttachedToInvisible)
  }

  /** The owner's part of `checkMenuItemEnabled`: a context menu's target is not consulted. */
  function OwnerEnabled(owner: Owner): Outcome<ClickFailure>
  {
    match owner
    case ContextMenuOwner(_, _) => Pass
    case OtherOwner(_, enabled) => if enabled then Pass else Fail(AttachedToDisabled)
  }

  /**
   * `checkMenuItemVisible(originalItem, parentMap)` climbing the chain
   * `path` (the item first); `original` says whether `path[0]` is the
   * clicked item.
   */
  function CheckVisible(path: seq<MenuItem>, owner: Owner, original: bool): Outcome<ClickFailure>
    decreases |path|
  {
    if |path| == 0 then OwnerVisible(owner)
    else if !path[0].visible then Fail(if original then NotVisible else ParentNotVisible)
    else CheckVisible(path[1..], owner, false)
  }

  /** `checkMenuItemEnabled(originalItem, parentMap)` climbing the same chain. */
  function CheckEnabled(path: seq<MenuItem>, owner: Owner, original: bool): Outcome<ClickFailure>
    decreases |path|
  {
    if |path| == 0 then OwnerEnabled(owner)
    else if !path[0].enabled then Fail(if original then NotEnabled else ParentNotEnabled)
    else CheckEnabled(path[1..], owner, false)
  }

  /**
   * The visibility check fails on the item itself when it is hidden, on a
   * parent item (with its own message) when one of them is, and otherwise
   * answers what the owner says.
   */
  lemma {:induction false} CheckVisibleSpec(path: seq<MenuItem>, owner: Owner, original: bool)
    ensures (forall j :: 0 <= j < |path| ==> path[j].visible) ==> CheckVisible(path, owner, original) == OwnerVisible(owner)
    ensures (exists j :: 0 <= j < |path| && !path[j].visible) ==>
              CheckVisible(path, owner, original) == Fail(if original && !path[0].visible then NotVisible else ParentNotVisible)
    decreases |path|
  {
    if |path| > 0 && path[0].visible {
      CheckVisibleSpec(path[1..], owner, false);
      if exists j :: 0 <= j < |path| && !path[j].visible {
        var j :| 0 <= j < |path| && !path[j].visible;
        assert !path[1..][j - 1].visible;
      }
    }
  }

  /** The same for enablement; under a context menu it holds iff every item on the chain is enabled. */
  lemma {:induction false} CheckEnabledSpec(path: seq<MenuItem>, owner: Owner, original: bool)
    ensures (forall j :: 0 <= j < |path| ==> path[j].enabled) ==> CheckEnabled(path, owner, original) == OwnerEnabled(owner)
    ensures (exists j :: 0 <= j < |path| && !path[j].enabled) ==>
              CheckEnabled(path, owner, original) == Fail(if original && !path[0].enabled then NotEnabled else ParentNotEnabled)
    ensures owner.ContextMenuOwner? ==>
              (CheckEnabled(path, owner, original).Pass? <==> forall j :: 0 <= j < |path| ==> path[j].enabled)
    decreases |path|
  {
    if |path| > 0 && path[0].enabled {
      CheckEnabledSpec(path[1..], owner, false);
      if exists j :: 0 <= j < |path| && !path[j].enabled {
        var j :| 0 <= j < |path| && !path[j].enabled;
        assert !path[1..][j - 1].enabled;
      }
      if forall j :: 0 <= j < |path[1..]| ==> path[1..][j].enabled {
        assert forall j :: 0 <= j < |path| ==> path[j].enabled by {
          forall j | 0 <= j < |path| ensures path[j].enabled {
            if j > 0 {
              assert path[j] == path[1..][j - 1];
            }
          }
        }
      }
    }
  }

  // -------------------------------------------------------------- toggling

  /** `isChecked = !isChecked` when the item is checkable. */
  function Flip(it: MenuItem): (r: MenuItem)
    ensures r.id == it.id && r.children == it.children
    ensures r.checked == (it.checked != it.checkable)
  {
    if it.checkable then it.(checked := !it.checked) else it
  }

  /** The tree after the item with the identity has been flipped. */
  function ToggleIn(it: MenuItem, id: nat): MenuItem
    decreases it, 1
  {
    (if it.id == id then Flip(it) else it).(children := ToggleForest(it.children, id))
  }

  function ToggleForest(cs: seq<MenuItem>, id: nat): (r: seq<MenuItem>)
    ensures |r| == |cs|
    decreases cs, 0
  {
    if |cs| == 0 then [] else [ToggleIn(cs[0], id)] + ToggleForest(cs[1..], id)
  }

  /** Toggling twice gives back the menu. */
  lemma {:induction false} ToggleInTwice(it: MenuItem, id: nat)
    ensures ToggleIn(ToggleIn(it, id), id) == it
    decreases it, 1
  {
    ToggleForestTwice(it.children, id);
  }

  lemma {:induction false} ToggleForestTwice(cs: seq<MenuItem>, id: nat)
    ensures ToggleForest(ToggleForest(cs, id), id) == cs
    decreases cs, 0
  {
    if |cs| > 0 {
      var t := ToggleForest(cs, id);
      assert t[0] == ToggleIn(cs[0], id) && t[1..] == ToggleForest(cs[1..], id);
      ToggleInTwice(cs[0], id);
      ToggleForestTwice(cs[1..], id);
    }
  }

  /** An item without its sub-menu. */
  function Strip(it: MenuItem): MenuItem
  {
    it.(children := [])
  }

  /** `after` is `before`, item for item, with only the items of that identity flipped. */
  predicate OnlyFlipped(before: seq<MenuItem>, after: seq<MenuItem>, id: nat)
  {
    |before| == |after|
    && forall k :: 0 <= k < |before| ==>
         Strip(after[k]) == Strip(if before[k].id == id then Flip(before[k]) else before[k])
  }

  lemma OnlyFlippedAppend(a1: seq<MenuItem>, b1: seq<MenuItem>, a2: seq<MenuItem>, b2: seq<MenuItem>, id: nat)
    requires OnlyFlipped(a1, b1, id) && OnlyFlipped(a2, b2, id)
    ensures OnlyFlipped(a1 + a2, b1 + b2, id)
  {
    forall k | 0 <= k < |a1 + a2|
      ensures Strip((b1 + b2)[k]) == Strip(if (a1 + a2)[k].id == id then Flip((a1 + a2)[k]) else (a1 + a2)[k])
    {
      if k >= |a1| {
        assert (a1 + a2)[k] == a2[k - |a1|] && (b1 + b2)[k] == b2[k - |a1|];
      }
    }
  }

  /** Toggling changes nothing but the `isChecked` of the items with that identity. */
  lemma {:induction false} ToggleInChangesOnlyItem(it: MenuItem, id: nat)
    ensures OnlyFlipped(Items(it), Items(ToggleIn(it, id)), id)
    decreases it, 1
  {
    ToggleForestChangesOnlyItem(it.children, id);
    var t := ToggleIn(it, id);
    assert OnlyFlipped([it], [t], id);
    OnlyFlippedAppend([it], [t], ItemsForest(it.children), ItemsForest(t.children), id);
  }

  lemma {:induction false} ToggleForestChangesOnlyItem(cs: seq<MenuItem>, id: nat)
    ensures OnlyFlipped(ItemsForest(cs), ItemsForest(ToggleForest(cs, id)), id)
    decreases cs, 0
  {
    if |cs| > 0 {
      var t := ToggleForest(cs, id);
      assert t[0] == ToggleIn(cs[0], id) && t[1..] == ToggleForest(cs[1..], id);
      ToggleInChangesOnlyItem(cs[0], id);
      ToggleForestChangesOnlyItem(cs[1..], id);
      OnlyFlippedAppend(Items(cs[0]), Items(t[0]), ItemsForest(cs[1..]), ItemsForest(t[1..]), id);
    }
  }

  // ---------------------------------------------------------------- search

  /** `firstOrNull(predicate)`: the index of the first element satisfying it. */
  function FirstMatch(s: seq<MenuItem>, matches: MenuItem -> bool): (r: Option<nat>)
    ensures r.None? <==> forall i :: 0 <= i < |s| ==> !matches(s[i])
    ensures r.Some? ==> r.value < |s| && matches(s[r.value]) && forall j :: 0 <= j < r.value ==> !matches(s[j])
  {
    if |s| == 0 then None
    else if matches(s[0]) then Some(0)
    else match FirstMatch(s[1..], matches)
      case None => None
      case Some(i) => Some(i + 1)
  }

  // ---------------------------------------------------------------- the menu

  /** A menu component with its item tree and the click events its listeners have seen. */
  class Menu {
    const owner: Owner
    var items: seq<MenuItem>
    var clicks: seq<ClickEvent>

    constructor(owner: Owner, items: seq<MenuItem>)
      ensures this.owner == owner && this.items == items && clicks == []
    {
      this.owner := owner;
      this.items := items;
      clicks := [];
    }

    /** Whether clicking toggles `isChecked`: `MenuItem._click` does, `GridMenuItem._click` does not. */
    predicate Toggles()
    {
      !(owner.ContextMenuOwner? && owner.grid)
    }

    /**
     * `_click(parentMap)` on the item at the head of `path` (its chain of
     * ancestors): both checks, then the toggle, then the click event,
     * which therefore sees the new `isChecked`.
     */
    method ClickAlong(path: seq<MenuItem>) returns (r: Outcome<ClickFailure>)
      requires |path| >= 1
      modifies this
      ensures var checks := if CheckVisible(path, owner, true).Fail? then CheckVisible(path, owner, true)
                            else CheckEnabled(path, owner, true);
              r == checks
      ensures r.Fail? ==> items == old(items) && clicks == old(clicks)
      ensures r.Pass? && Toggles() ==>
                items == ToggleForest(old(items), path[0].id)
                && clicks == old(clicks) + [ClickEvent(path[0].id, Flip(path[0]).checked)]
      ensures r.Pass? && !Toggles() ==>
                items == old(items) && clicks == old(clicks) + [ClickEvent(path[0].id, path[0].checked)]
    {
      r := CheckVisible(path, owner, true);
      if r.Fail? {
        return;
      }
      r := CheckEnabled(path, owner, true);
      if r.Fail? {
        return;
      }
      var item := path[0];
      if Toggles() {
        items := ToggleForest(items, item.id);
        item := Flip(item);
      }
      clicks := clicks + [ClickEvent(item.id, item.checked)];
    }

    /**
     * `HasMenuItems._click(item)`: refused with "not contained in this
     * menu" unless the item is a key of the parent map, then clicked
     * along its chain of ancestors.
     */
    method Click(id: nat) returns (r: Outcome<ClickFailure>)
      modifies this
      ensures id !in IdsForest(old(items)) ==> r == Fail(NotInMenu) && items == old(items) && clicks == old(clicks)
      ensures id in IdsForest(old(items)) ==>
                var path := Locate(old(items), id).value;
                && r == (if CheckVisible(path, owner, true).Fail? then CheckVisible(path, owner, true)
                         else CheckEnabled(path, owner, true))
                && (r.Fail? ==> items == old(items) && clicks == old(clicks))
                && (r.Pass? && Toggles() ==>
                      items == ToggleForest(old(items), id)
                      && clicks == old(clicks) + [ClickEvent(id, Flip(path[0]).checked)])
                && (r.Pass? && !Toggles() ==>
                      items == old(items) && clicks == old(clicks) + [ClickEvent(id, path[0].checked)])
    {
      var parents := GetParentMap(items);
      if id !in parents {
        return Fail(NotInMenu);
      }
      var path := Locate(items, id).value;
      r := ClickAlong(path);
    }

    /**
     * `_clickItemMatching(searchSpec)`: the first item in parent-map order
     * (pre-order) that matches is clicked; no match fails.
     */
    method ClickItemMatching(matches: MenuItem -> bool) returns (r: Outcome<ClickFailure>)
      modifies this
      ensures (forall x :: x in ItemsForest(old(items)) ==> !matches(x)) ==>
                r == Fail(NoMatch) && items == old(items) && clicks == old(clicks)
      ensures FirstMatch(ItemsForest(old(items)), matches).Some? ==>
                var id := ItemsForest(old(items))[FirstMatch(ItemsForest(old(items)), matches).value].id;
                id in IdsForest(old(items)) &&
                var path := Locate(old(items), id).value;
                && r == (if CheckVisible(path, owner, true).Fail? then CheckVisible(path, owner, true)
                         else CheckEnabled(path, owner, true))
                && (r.Fail? ==> items == old(items) && clicks == old(clicks))
                && (r.Pass? && Toggles() ==>
                      items == ToggleForest(old(items), id)
                      && clicks == old(clicks) + [ClickEvent(id, Flip(path[0]).checked)])
                && (r.Pass? && !Toggles() ==>
                      items == old(items) && clicks == old(clicks) + [ClickEvent(id, path[0].checked)])
    {
      var all := ItemsForest(items);
      var found := FirstMatch(all, matches);
      if found.None? {
        return Fail(NoMatch);
      }
      var item := all[found.value];
      ItemsForestHaveIds(items);
      var path := Locate(items, item.id).value;
      r := ClickAlong(path);
    }
  }
}
