/**
 * The current location and view (Navigator.kt). The route registry is a
 * parameter: `getNavigationTarget(path, segments)` becomes the function
 * `resolve`, which names the view class a route prefix with its remaining
 * segments resolves to.
 */
module Navigator {
  import opened Wrappers
  import Text

  /** A view is named by its class. */
  type View = string

  /** The current UI, reduced to its active view location (`pathWithQueryParameters`). */
  datatype UIState = UIState(location: string)

  /** `currentPath`: the location of the current UI, null without one. */
  function CurrentPath(ui: Option<UIState>): (r: Option<string>)
    ensures r.None? <==> ui.None?
    ensures ui.Some? ==> r == Some(ui.value.location)
  {
    match ui
    case None => None
    case Some(u) => Some(u.location)
  }

  /** The route segments: slashes trimmed, the query string dropped, split at '/'. */
  function Segments(path: string): (segs: seq<string>)
    ensures |segs| >= 1
  {
    Text.Split(Text.SubstringBefore(Text.Trim(path, '/'), '?'), '/')
  }

  /** The registry's answer for the first `k` segments as the route and the rest as parameters. */
  function Target(segs: seq<string>, k: nat, resolve: (string, seq<string>) -> Option<View>): Option<View>
    requires k <= |segs|
  {
    resolve(Text.Join(segs[..k], "/"), segs[k..])
  }

  /** The loop `for (prefix in k downTo 1)`: the first prefix length, longest first, that resolves. */
  function ViewFrom(segs: seq<string>, k: nat, resolve: (string, seq<string>) -> Option<View>): (v: Option<View>)
    requires k <= |segs|
  {
    if k == 0 then None
    else if Target(segs, k, resolve).Some? then Target(segs, k, resolve)
    else ViewFrom(segs, k - 1, resolve)
  }

  /** `currentView` as a value: null without a UI, otherwise the longest resolving prefix's view. */
  function CurrentViewOf(ui: Option<UIState>, resolve: (string, seq<string>) -> Option<View>): Option<View>
  {
    match ui
    case None => None
    case Some(u) => var segs := Segments(u.location); ViewFrom(segs, |segs|, resolve)
  }

  /**
   * The search answers the view of the longest prefix that resolves: it
   * resolves, and no longer prefix does; and it answers null exactly when
   * no prefix of length 1 to `k` resolves.
   */
  lemma {:induction false} ViewFromSpec(segs: seq<string>, k: nat, resolve: (string, seq<string>) -> Option<View>)
    requires k <= |segs|
    ensures ViewFrom(segs, k, resolve).None? <==> forall j :: 1 <= j <= k ==> Target(segs, j, resolve).None?
    ensures ViewFrom(segs, k, resolve).Some? ==>
              exists j :: 1 <= j <= k && ViewFrom(segs, k, resolve) == Target(segs, j, resolve)
                && forall i :: j < i <= k ==> Target(segs, i, resolve).None?
  {
    if k > 0 && Target(segs, k, resolve).None? {
      ViewFromSpec(segs, k - 1, resolve);
    }
  }

  /** The first prefix tried is the whole (trimmed, query-less) path with no parameters. */
  lemma WholePathTriedFirst(path: string, resolve: (string, seq<string>) -> Option<View>)
    ensures var segs := Segments(path);
      Target(segs, |segs|, resolve) == resolve(Text.SubstringBefore(Text.Trim(path, '/'), '?'), [])
  {
    var stripped := Text.SubstringBefore(Text.Trim(path, '/'), '?');
    var segs := Segments(path);
    Text.JoinSplit(stripped, '/');
    assert segs[..|segs|] == segs;
    assert segs[|segs|..] == [];
  }

  /** `currentView`: the loop over prefix lengths with its early return. */
  method CurrentView(ui: Option<UIState>, resolve: (string, seq<string>) -> Option<View>) returns (v: Option<View>)
    ensures v == CurrentViewOf(ui, resolve)
    ensures ui.None? ==> v.None?
  {
    if ui.None? {
      return None;
    }
    var segs := Segments(ui.value.location);
    var prefix := |segs|;
    while prefix >= 1
      invariant 0 <= prefix <= |segs|
      invariant ViewFrom(segs, prefix, resolve) == ViewFrom(segs, |segs|, resolve)
    {
      var clazz := resolve(Text.Join(segs[..prefix], "/"), segs[prefix..]);
      if clazz.Some? {
        return clazz;
      }
      prefix := prefix - 1;
    }
    return None;
  }

  /** `expectView(view)`: fails, reporting what was found, unless the current view is `view`. */
  method ExpectView(ui: Option<UIState>, resolve: (string, seq<string>) -> Option<View>, view: View)
    returns (r: Outcome<Option<View>>)
    ensures r.Pass? <==> CurrentViewOf(ui, resolve) == Some(view)
    ensures r.Fail? ==> r.error == CurrentViewOf(ui, resolve)
  {
    var current := CurrentView(ui, resolve);
    if current == Some(view) {
      r := Pass;
    } else {
      r := Fail(current);
    }
  }
}
