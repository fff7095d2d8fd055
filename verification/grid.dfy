/**
 * Grid row access and the grid dump (Grid.kt). A plain grid reads its rows
 * through its data communicator, whose provider may or may not report a
 * size; a tree grid walks its hierarchical provider depth first and skips
 * the children of collapsed items. The providers are values here: a list of
 * items, or a forest of nodes carrying what `hasChildren` and `size` answer
 * for them.
 */
module Grids {
  import opened Wrappers
  import Text
  import Ranges
  import PPT = PrettyPrintTree

  /** `_saneFetchLimit`: `Int.MAX_VALUE / 1000`, the most rows one fetch may ask for. */
  const SANE_FETCH_LIMIT: int := Ranges.INT_MAX / 1000

  /** The exceptions the row access functions throw. */
  datatype GridFailure =
    | NegativeRowIndex(rowIndex: int)          // require(rowIndex >= 0)
    | RowBeyondSize(rowIndex: int, size: nat)  // "... but the data provider only has N rows"
    | NoRowReturned(rowIndex: int)             // "... but the data provider returned 0 rows"
    | FetchLimitTooLarge(limit: int)           // require(limit <= _saneFetchLimit)
    | NegativeCount(count: int)                // drop/skip or take/limit with a negative count
    | NegativeChildCount(count: int)           // check(result >= 0) in checkedSize
    | RowCountMismatch(expected: int, actual: nat)

  /** An item of a hierarchical provider, whether the tree grid shows it expanded, and what the provider reports about it. */
  datatype Node<T> = Node(item: T, expanded: bool, hasChildren: bool, reportedSize: int, children: seq<Node<T>>)

  /** The grid's data: a plain grid over a (defined-size or not) list, or a tree grid over a forest. */
  datatype Source<T> =
    | ListSource(definedSize: bool, items: seq<T>)
    | TreeSource(rootSize: int, roots: seq<Node<T>>)

  function Min(a: int, b: int): int
  {
    if a <= b then a else b
  }

  function Max(a: int, b: int): int
  {
    if a >= b then a else b
  }

  // ---------------------------------------------------------------------
  // The tree walk (`_rowSequence`, `checkedSize`, `checkedFetch`)
  // ---------------------------------------------------------------------

  /**
   * `checkedSize(query)`: a parent without children has none, whatever `size`
   * says; otherwise `size` is believed unless it is negative. The root query
   * has no parent (`parentHasChildren == None`).
   */
  function CheckedSize(parentHasChildren: Option<bool>, reported: int): (r: Result<nat, GridFailure>)
    ensures parentHasChildren == Some(false) ==> r == Ok(0)
    ensures parentHasChildren != Some(false) ==> (r.Err? <==> reported < 0)
    ensures r.Ok? ==> r.value == 0 || r.value == reported
    ensures r.Err? ==> r.error == NegativeChildCount(reported)
  {
    if parentHasChildren == Some(false) then Ok(0)
    else if reported < 0 then Err(NegativeChildCount(reported))
    else Ok(reported)
  }

  /**
   * Whether `getChildrenOf(item)` goes on to `fetchChildren`: never for a
   * collapsed item, and through `checkedFetch` only when `checkedSize` is not 0.
   */
  function FetchesChildren<T>(n: Node<T>): (r: Result<bool, GridFailure>)
    ensures !n.expanded ==> r == Ok(false)
    ensures r == Ok(true) ==> n.expanded && n.hasChildren && n.reportedSize > 0
  {
    if !n.expanded then Ok(false)
    else match CheckedSize(Some(n.hasChildren), n.reportedSize)
      case Err(e) => Err(e)
      case Ok(size) => Ok(size != 0)
  }

  function NodeCount<T>(n: Node<T>): nat
    decreases n, 1
  {
    1 + NodeCountForest(n.children)
  }

  function NodeCountForest<T>(cs: seq<Node<T>>): nat
    decreases cs, 0
  {
    if cs == [] then 0 else NodeCount(cs[0]) + NodeCountForest(cs[1..])
  }

  /** Every item of a subtree in pre-order, whether shown or not. */
  function Preorder<T>(n: Node<T>): seq<T>
    decreases n, 1
  {
    [n.item] + PreorderForest(n.children)
  }

  function PreorderForest<T>(cs: seq<Node<T>>): seq<T>
    decreases cs, 0
  {
    if cs == [] then [] else Preorder(cs[0]) + PreorderForest(cs[1..])
  }

  /**
   * `itemSubtreeSequence(item)`: the item, then the walks of the children
   * `getChildrenOf` answers. The walk shows the item first, never more rows
   * than the subtree holds, and exactly the item when it is collapsed.
   */
  function WalkItem<T>(n: Node<T>): (r: Result<seq<T>, GridFailure>)
    ensures r.Ok? ==> 1 <= |r.value| <= NodeCount(n) && r.value[0] == n.item
    ensures !n.expanded ==> r == Ok([n.item])
    decreases n, 1
  {
    match FetchesChildren(n)
    case Err(e) => Err(e)
    case Ok(fetch) =>
      if !fetch then Ok([n.item])
      else match WalkForest(n.children)
        case Err(e) => Err(e)
        case Ok(rest) => Ok([n.item] + rest)
  }

  /** `roots.map { itemSubtreeSequence(it) }.flatten()`: at least one row per root, never more than the forest holds. */
  function WalkForest<T>(cs: seq<Node<T>>): (r: Result<seq<T>, GridFailure>)
    ensures r.Ok? ==> |cs| <= |r.value| <= NodeCountForest(cs)
    decreases cs, 0
  {
    if cs == [] then Ok([])
    else match WalkItem(cs[0])
      case Err(e) => Err(e)
      case Ok(first) =>
        match WalkForest(cs[1..])
        case Err(e) => Err(e)
        case Ok(rest) => Ok(first + rest)
  }

  /** Every node is expanded and the provider reports its children truthfully. */
  predicate FullyExpanded<T>(n: Node<T>)
    decreases n, 1
  {
    n.expanded && n.hasChildren == (|n.children| > 0) && n.reportedSize == |n.children|
    && FullyExpandedForest(n.children)
  }

  predicate FullyExpandedForest<T>(cs: seq<Node<T>>)
    decreases cs, 0
  {
    forall i :: 0 <= i < |cs| ==> FullyExpanded(cs[i])
  }

  /** With everything expanded and truthful sizes, the walk is the full depth-first pre-order. */
  lemma {:induction false} WalkItemFullyExpanded<T>(n: Node<T>)
    requires FullyExpanded(n)
    ensures WalkItem(n) == Ok(Preorder(n))
    decreases n, 1
  {
    WalkForestFullyExpanded(n.children);
    if |n.children| == 0 {
      assert Preorder(n) == [n.item];
    }
  }

  lemma {:induction false} WalkForestFullyExpanded<T>(cs: seq<Node<T>>)
    requires FullyExpandedForest(cs)
    ensures WalkForest(cs) == Ok(PreorderForest(cs))
    decreases cs, 0
  {
    if cs != [] {
      WalkItemFullyExpanded(cs[0]);
      assert FullyExpandedForest(cs[1..]) by {
        forall i | 0 <= i < |cs[1..]|
          ensures FullyExpanded(cs[1..][i])
        {
          assert cs[1..][i] == cs[i + 1];
        }
      }
      WalkForestFullyExpanded(cs[1..]);
    }
  }

  // ---------------------------------------------------------------------
  // The tree a tree grid dumps (`_dataSourceToPrettyTree`)
  // ---------------------------------------------------------------------

  /** `_getFormattedRow(item).joinToString(postfix = "\n")`: a tree node's name. */
  function RowName<T>(item: T, format: T -> seq<string>): string
  {
    Text.Join(format(item), ", ") + "\n"
  }

  /** The names of a list of rows, in order. */
  function RowNames<T>(items: seq<T>, format: T -> seq<string>): (r: seq<string>)
    ensures |r| == |items| && forall i :: 0 <= i < |items| ==> r[i] == RowName(items[i], format)
  {
    seq(|items|, i requires 0 <= i < |items| => RowName(items[i], format))
  }

  lemma RowNamesAppend<T>(a: seq<T>, b: seq<T>, format: T -> seq<string>)
    ensures RowNames(a + b, format) == RowNames(a, format) + RowNames(b, format)
  {
  }

  /** `toPrettyTree(item)`: the item's name, then the trees of the children `getChildrenOf` answers. */
  function ToPrettyTree<T>(n: Node<T>, format: T -> seq<string>): Result<PPT.Tree, GridFailure>
    decreases n, 1
  {
    match FetchesChildren(n)
    case Err(e) => Err(e)
    case Ok(fetch) =>
      if !fetch then Ok(PPT.Tree(RowName(n.item, format), []))
      else match ToPrettyForest(n.children, format)
        case Err(e) => Err(e)
        case Ok(kids) => Ok(PPT.Tree(RowName(n.item, format), kids))
  }

  /** `children.map { toPrettyTree(it) }`: the first failure ends it. */
  function ToPrettyForest<T>(cs: seq<Node<T>>, format: T -> seq<string>): Result<seq<PPT.Tree>, GridFailure>
    decreases cs, 0
  {
    if cs == [] then Ok([])
    else match ToPrettyTree(cs[0], format)
      case Err(e) => Err(e)
      case Ok(first) =>
        match ToPrettyForest(cs[1..], format)
        case Err(e) => Err(e)
        case Ok(rest) => Ok([first] + rest)
  }

  /** `_dataSourceToPrettyTree()`: a `TreeGrid` root over the trees of the root items. */
  function DataSourceToPrettyTree<T>(rootSize: int, roots: seq<Node<T>>, format: T -> seq<string>): Result<PPT.Tree, GridFailure>
  {
    match CheckedSize(None, rootSize)
    case Err(e) => Err(e)
    case Ok(size) =>
      if size == 0 then Ok(PPT.Tree("TreeGrid", []))
      else match ToPrettyForest(roots, format)
        case Err(e) => Err(e)
        case Ok(kids) => Ok(PPT.Tree("TreeGrid", kids))
  }

  /** The node names of a printed tree, in pre-order. */
  function Names(t: PPT.Tree): seq<string>
    decreases t, 1
  {
    [t.name] + NamesForest(t.children)
  }

  function NamesForest(ts: seq<PPT.Tree>): seq<string>
    decreases ts, 0
  {
    if ts == [] then [] else Names(ts[0]) + NamesForest(ts[1..])
  }

  /**
   * The dumped tree and the row walk agree: building the tree fails exactly
   * when the walk does, with the same failure, and otherwise its nodes in
   * pre-order are the walked rows' names.
   */
  lemma {:induction false} PrettyTreeFollowsWalk<T>(n: Node<T>, format: T -> seq<string>)
    ensures ToPrettyTree(n, format).Ok? <==> WalkItem(n).Ok?
    ensures ToPrettyTree(n, format).Err? ==> ToPrettyTree(n, format).error == WalkItem(n).error
    ensures ToPrettyTree(n, format).Ok? ==> Names(ToPrettyTree(n, format).value) == RowNames(WalkItem(n).value, format)
    decreases n, 1
  {
    var fetch := FetchesChildren(n);
    if fetch.Ok? {
      var name := RowName(n.item, format);
      if !fetch.value {
        assert Names(PPT.Tree(name, [])) == [name];
      } else {
        PrettyForestFollowsWalk(n.children, format);
        if ToPrettyForest(n.children, format).Ok? {
          var kids := ToPrettyForest(n.children, format).value;
          RowNamesAppend([n.item], WalkForest(n.children).value, format);
          assert Names(PPT.Tree(name, kids)) == [name] + NamesForest(kids);
        }
      }
    }
  }

  lemma {:induction false} PrettyForestFollowsWalk<T>(cs: seq<Node<T>>, format: T -> seq<string>)
    ensures ToPrettyForest(cs, format).Ok? <==> WalkForest(cs).Ok?
    ensures ToPrettyForest(cs, format).Err? ==> ToPrettyForest(cs, format).error == WalkForest(cs).error
    ensures ToPrettyForest(cs, format).Ok? ==> NamesForest(ToPrettyForest(cs, format).value) == RowNames(WalkForest(cs).value, format)
    decreases cs, 0
  {
    if cs != [] {
      PrettyTreeFollowsWalk(cs[0], format);
      PrettyForestFollowsWalk(cs[1..], format);
      if ToPrettyForest(cs, format).Ok? {
        var first := ToPrettyTree(cs[0], format).value;
        var rest := ToPrettyForest(cs[1..], format).value;
        assert ([first] + rest)[0] == first && ([first] + rest)[1..] == rest;
        RowNamesAppend(WalkItem(cs[0]).value, WalkForest(cs[1..]).value, format);
      }
    }
  }

  /**
   * The tree a tree grid dumps has the `TreeGrid` root and, below it, one
   * node per row the grid shows, in row order; it fails exactly when
   * reading the rows does.
   */
  lemma DumpedTreeFollowsRows<T>(rootSize: int, roots: seq<Node<T>>, format: T -> seq<string>)
    ensures DataSourceToPrettyTree(rootSize, roots, format).Ok? <==> Rows(TreeSource(rootSize, roots)).Ok?
    ensures DataSourceToPrettyTree(rootSize, roots, format).Err? ==>
              DataSourceToPrettyTree(rootSize, roots, format).error == Rows(TreeSource(rootSize, roots)).error
    ensures DataSourceToPrettyTree(rootSize, roots, format).Ok? ==>
              var t := DataSourceToPrettyTree(rootSize, roots, format).value;
              t.name == "TreeGrid" && NamesForest(t.children) == RowNames(Rows(TreeSource(rootSize, roots)).value, format)
  {
    PrettyForestFollowsWalk(roots, format);
  }

  /**
   * `tree.print().split('\n').filterNotBlank().drop(1)`: the printed tree's
   * non-blank lines without the root's.
   */
  function TreeDumpLines(t: PPT.Tree, useAscii: bool): seq<string>
  {
    var lines := Text.NonBlank(Text.Split(PPT.Render(t, PPT.GlyphsFor(useAscii), "", true), '\n'));
    if |lines| == 0 then [] else lines[1..]
  }

  // ---------------------------------------------------------------------
  // Rows, size and fetch
  // ---------------------------------------------------------------------

  /** The rows the grid shows: the provider's items, or the tree walk from the root query. */
  function Rows<T>(src: Source<T>): (r: Result<seq<T>, GridFailure>)
    ensures src.ListSource? ==> r == Ok(src.items)
    ensures src.TreeSource? && src.rootSize < 0 ==> r == Err(NegativeChildCount(src.rootSize))
  {
    match src
    case ListSource(_, items) => Ok(items)
    case TreeSource(rootSize, roots) =>
      match CheckedSize(None, rootSize)
      case Err(e) => Err(e)
      case Ok(size) => if size == 0 then Ok([]) else WalkForest(roots)
  }

  /**
   * `Grid._size()`: the provider's size for a defined-size list; for an
   * undefined size, the length of `_findAll()`, which fetches at most the
   * sane limit; for a tree grid, the length of the walk.
   */
  function Size<T>(src: Source<T>): (r: Result<nat, GridFailure>)
    ensures r.Ok? <==> Rows(src).Ok?
    ensures r.Ok? && src.ListSource? && !src.definedSize ==> r.value == Min(|src.items|, SANE_FETCH_LIMIT)
    ensures r.Ok? && !(src.ListSource? && !src.definedSize) ==> r.value == |Rows(src).value|
  {
    match src
    case ListSource(definedSize, items) =>
      if definedSize then Ok(|items|) else Ok(|Window(items, 0, SANE_FETCH_LIMIT)|)
    case TreeSource(_, _) =>
      match Rows(src)
      case Err(e) => Err(e)
      case Ok(rows) => Ok(|rows|)
  }

  /** `drop(offset).take(limit)` of a list of rows. */
  function Window<T>(s: seq<T>, offset: nat, limit: nat): (w: seq<T>)
    ensures |w| == if offset >= |s| then 0 else Min(limit, |s| - offset)
    ensures forall k :: 0 <= k < |w| ==> w[k] == s[offset + k]
  {
    if offset >= |s| then [] else s[offset .. offset + Min(limit, |s| - offset)]
  }

  /**
   * `_fetch(offset, limit)`: a plain grid goes through `DataCommunicator.fetch`,
   * which refuses a limit above the sane limit; a tree grid drops and takes
   * from the walk, with no such limit. Negative counts are refused.
   */
  function Fetch<T>(src: Source<T>, offset: int, limit: int): (r: Result<seq<T>, GridFailure>)
    ensures src.ListSource? && limit > SANE_FETCH_LIMIT ==> r == Err(FetchLimitTooLarge(limit))
    ensures r.Ok? <==> 0 <= offset && 0 <= limit && Rows(src).Ok? && (src.ListSource? ==> limit <= SANE_FETCH_LIMIT)
    ensures r.Ok? ==> r.value == Window(Rows(src).value, offset, limit)
  {
    match src
    case ListSource(_, items) =>
      if limit > SANE_FETCH_LIMIT then Err(FetchLimitTooLarge(limit))
      else if offset < 0 then Err(NegativeCount(offset))
      else if limit < 0 then Err(NegativeCount(limit))
      else Ok(Window(items, offset, limit))
    case TreeSource(rootSize, roots) =>
      match CheckedSize(None, rootSize)
      case Err(e) => Err(e)
      case Ok(size) =>
        if offset < 0 then Err(NegativeCount(offset))
        else if limit < 0 then Err(NegativeCount(limit))
        else
          match (if size == 0 then Ok([]) else WalkForest(roots))
          case Err(e) => Err(e)
          case Ok(rows) => Ok(Window(rows, offset, limit))
  }

  /**
   * `_getOrNull(rowIndex)`: refuses a negative index; answers null past the
   * end of a defined-size list without fetching; otherwise fetches one row.
   * It answers the row at that index, or null exactly when there is none.
   */
  function GetOrNull<T>(src: Source<T>, rowIndex: int): (r: Result<Option<T>, GridFailure>)
    ensures rowIndex < 0 ==> r == Err(NegativeRowIndex(rowIndex))
    ensures rowIndex >= 0 ==> (r.Ok? <==> Rows(src).Ok?)
    ensures r.Ok? ==> (r.value.Some? <==> rowIndex < |Rows(src).value|)
    ensures r.Ok? && r.value.Some? ==> r.value.value == Rows(src).value[rowIndex]
  {
    if rowIndex < 0 then Err(NegativeRowIndex(rowIndex))
    else if src.ListSource? && src.definedSize && rowIndex >= |src.items| then Ok(None)
    else
      match Fetch(src, rowIndex, 1)
      case Err(e) => Err(e)
      case Ok(w) => if |w| == 0 then Ok(None) else Ok(Some(w[0]))
  }

  /**
   * `_get(rowIndex)`: the row at that index; a negative index, an index past a
   * defined size, and an index with no row are each an error.
   */
  function Get<T>(src: Source<T>, rowIndex: int): (r: Result<T, GridFailure>)
    ensures r.Ok? <==> 0 <= rowIndex && Rows(src).Ok? && rowIndex < |Rows(src).value|
    ensures r.Ok? ==> r.value == Rows(src).value[rowIndex]
    ensures rowIndex < 0 ==> r == Err(NegativeRowIndex(rowIndex))
    ensures 0 <= rowIndex && src.ListSource? && src.definedSize && rowIndex >= |src.items| ==>
              r == Err(RowBeyondSize(rowIndex, |src.items|))
  {
    if rowIndex < 0 then Err(NegativeRowIndex(rowIndex))
    else if src.ListSource? && src.definedSize && rowIndex >= |src.items| then Err(RowBeyondSize(rowIndex, |src.items|))
    else
      match GetOrNull(src, rowIndex)
      case Err(e) => Err(e)
      case Ok(None) => Err(NoRowReturned(rowIndex))
      case Ok(Some(x)) => Ok(x)
  }

  /** `expectRows(count)`: passes exactly when the grid's size is `count`. */
  function ExpectRows<T>(src: Source<T>, count: int): (r: Outcome<GridFailure>)
    ensures r.Pass? <==> Size(src) == Ok(count)
    ensures Size(src).Ok? && Size(src).value != count ==> r == Fail(RowCountMismatch(count, Size(src).value))
  {
    match Size(src)
    case Err(e) => Fail(e)
    case Ok(actual) => if actual != count then Fail(RowCountMismatch(count, actual)) else Pass
  }

  // ---------------------------------------------------------------------
  // The dump (`getSortIndicator`, `_dump`)
  // ---------------------------------------------------------------------

  datatype Direction = Ascending | Descending

  /** A sort order entry; columns are compared by identity, here an id. */
  datatype SortOrder = SortOrder(column: nat, direction: Direction)

  datatype Column = Column(id: nat, header: string, visible: bool)

  /**
   * `getSortIndicator(column)`: the first sort order entry for the column
   * decides: "" when there is none, "v" when it is ascending, "^" otherwise.
   */
  function SortIndicator(sortOrder: seq<SortOrder>, column: nat): (r: string)
    ensures r == "" <==> forall k :: 0 <= k < |sortOrder| ==> sortOrder[k].column != column
    ensures r == "v" <==> exists k :: 0 <= k < |sortOrder| && sortOrder[k].column == column
                                      && sortOrder[k].direction == Ascending && SortedBefore(sortOrder, column, k)
    ensures r == "" || r == "v" || r == "^"
  {
    if sortOrder == [] then ""
    else if sortOrder[0].column == column then (if sortOrder[0].direction == Ascending then "v" else "^")
    else
      var r := SortIndicator(sortOrder[1..], column);
      assert forall k :: 1 <= k < |sortOrder| ==> sortOrder[k] == sortOrder[1..][k - 1];
      assert forall k :: 1 <= k < |sortOrder| ==> SortedBefore(sortOrder, column, k) == SortedBefore(sortOrder[1..], column, k - 1);
      r
  }

  /** No entry before `k` sorts the column. */
  predicate SortedBefore(sortOrder: seq<SortOrder>, column: nat, k: nat)
    requires k <= |sortOrder|
  {
    forall j :: 0 <= j < k ==> sortOrder[j].column != column
  }

  function VisibleColumns(columns: seq<Column>): (r: seq<Column>)
    ensures forall k :: 0 <= k < |r| ==> r[k].visible && r[k] in columns
    ensures forall c :: c in columns && c.visible ==> c in r
  {
    if columns == [] then []
    else (if columns[0].visible then [columns[0]] else []) + VisibleColumns(columns[1..])
  }

  /** The column header line: `--[h1]i1-[h2]i2--` over the visible columns. */
  function HeaderLine(columns: seq<Column>, sortOrder: seq<SortOrder>): string
  {
    var visible := VisibleColumns(columns);
    "--" + Text.Join(seq(|visible|, k requires 0 <= k < |visible| =>
                              "[" + visible[k].header + "]" + SortIndicator(sortOrder, visible[k].id)), "-")
    + "--\n"
  }

  /** The members of `rows` that are row indices below `size`, in order (`rows.intersect(0 until size)`). */
  function DisplayIndices(rows: Ranges.IntRange, size: nat): (r: seq<int>)
    ensures forall k :: 0 <= k < |r| ==> rows.Contains(r[k]) && 0 <= r[k] < size
    ensures forall i :: rows.Contains(i) && 0 <= i < size ==> i in r
    ensures forall k :: 0 < k < |r| ==> r[k - 1] < r[k]
    ensures |r| <= size
  {
    var lo := Max(rows.first, 0);
    var hi := Min(rows.last, size - 1);
    if lo > hi then []
    else
      var r := seq(hi - lo + 1, k requires 0 <= k <= hi - lo => lo + k);
      assert forall i :: rows.Contains(i) && 0 <= i < size ==> r[i - lo] == i;
      r
  }

  /**
   * `andMore`: the dump says how many rows it left out, and it leaves some
   * out exactly when the range misses a row index below the size.
   */
  lemma AndMoreWhenRangeMisses(rows: Ranges.IntRange, size: nat)
    ensures size - |DisplayIndices(rows, size)| > 0 <==> exists i :: 0 <= i < size && !rows.Contains(i)
  {
    var d := DisplayIndices(rows, size);
    if size - |d| > 0 {
      if rows.first > 0 {
        assert !rows.Contains(0);
      } else if rows.last < size - 1 {
        assert !rows.Contains(size - 1);
      } else {
        assert false;
      }
    } else {
      assert forall i :: 0 <= i < size ==> rows.Contains(i) by {
        forall i | 0 <= i < size
          ensures rows.Contains(i)
        {
          if !rows.Contains(i) {
            DisplayIndicesMissing(rows, size, i);
          }
        }
      }
    }
  }

  /** A row index the range misses makes the display indices fewer than the size. */
  lemma DisplayIndicesMissing(rows: Ranges.IntRange, size: nat, i: int)
    requires 0 <= i < size && !rows.Contains(i)
    ensures |DisplayIndices(rows, size)| < size
  {
  }

  /** The `i: text` line of a dumped row. */
  function RowLine(i: int, text: string): string
  {
    Text.IntToString(i) + ": " + text + "\n"
  }

  /** The text of line `i`, empty past the end. */
  function LineAt(lines: seq<string>, i: int): string
  {
    if 0 <= i < |lines| then lines[i] else ""
  }

  /** The dump lines of the given indices, in order. */
  function RowLines(indices: seq<int>, lines: seq<string>): string
  {
    if indices == [] then ""
    else RowLines(indices[..|indices| - 1], lines) + RowLine(indices[|indices| - 1], LineAt(lines, indices[|indices| - 1]))
  }

  lemma RowLinesAppend(indices: seq<int>, lines: seq<string>, k: nat)
    requires k < |indices|
    ensures RowLines(indices[..k + 1], lines) == RowLines(indices[..k], lines) + RowLine(indices[k], LineAt(lines, indices[k]))
  {
    assert indices[..k + 1][..k] == indices[..k];
  }

  /** `--and N more`, only when N is positive. */
  function Trailer(andMore: int): string
  {
    if andMore > 0 then "--and " + Text.IntToString(andMore) + " more\n" else ""
  }

  const POSSIBLY_MORE: string := "--and possibly more\n"
  const NO_MORE: string := "--\n"

  /** A dumped row of a plain grid: its formatted cells joined by ", ". */
  function FormattedRows<T>(items: seq<T>, format: T -> seq<string>): (r: seq<string>)
    ensures |r| == |items|
  {
    seq(|items|, i requires 0 <= i < |items| => Text.Join(format(items[i]), ", "))
  }

  /**
   * The rows that `for (i in rows)` prints when the size is unknown, up to the
   * first index without a row; it fails at once on a negative first index.
   */
  function ProbedIndices(rows: Ranges.IntRange, available: nat): (r: seq<int>)
    requires rows.first >= 0
    ensures forall k :: 0 <= k < |r| ==> r[k] == rows.first + k && rows.Contains(r[k]) && r[k] < available
  {
    var hi := Min(rows.last, available - 1);
    if rows.first > hi then [] else seq(hi - rows.first + 1, k requires 0 <= k <= hi - rows.first => rows.first + k)
  }

  /**
   * With the size unknown, the dump ends with "possibly more" exactly when
   * every member of the range had a row (as long as `rows.size` does not wrap).
   */
  lemma PossiblyMoreWhenRangeFilled(rows: Ranges.IntRange, available: nat)
    requires rows.first >= 0
    requires Ranges.INT_MIN <= rows.last + 1 - rows.first <= Ranges.INT_MAX
    ensures |ProbedIndices(rows, available)| == Ranges.Size(rows) <==> rows.first > rows.last || rows.last < available
  {
    Ranges.SizeCountsMembers(rows);
  }

  /** `for (i in displayIndices) append("$i: ${lines[i]}\n")`. */
  method AppendRowLines(indices: seq<int>, lines: seq<string>) returns (body: string)
    requires forall k :: 0 <= k < |indices| ==> 0 <= indices[k] < |lines|
    ensures body == RowLines(indices, lines)
  {
    body := "";
    for k := 0 to |indices|
      invariant body == RowLines(indices[..k], lines)
    {
      var i := indices[k];
      RowLinesAppend(indices, lines, k);
      assert lines[i] == LineAt(lines, i);
      body := body + RowLine(i, lines[i]);
    }
    assert indices[..|indices|] == indices;
  }

  /** The dump of a grid whose size is known: each displayed row, then `--and N more`. */
  method DumpSized(prefix: string, rows: Ranges.IntRange, lines: seq<string>) returns (s: string)
    ensures s == prefix + RowLines(DisplayIndices(rows, |lines|), lines) + Trailer(|lines| - |DisplayIndices(rows, |lines|)|)
  {
    var displayIndices := DisplayIndices(rows, |lines|);
    var body := AppendRowLines(displayIndices, lines);
    var andMore := |lines| - |displayIndices|;
    s := prefix + body + Trailer(andMore);
  }

  /**
   * `for (i in rows)` when the size is unknown: the lines of the rows up to
   * the first index without one, and their count; a negative first index
   * fails at once.
   */
  method ProbeRows(rows: Ranges.IntRange, lines: seq<string>)
    returns (s: string, rowsOutputted: nat, failed: bool)
    ensures failed <==> rows.first <= rows.last && rows.first < 0
    ensures !failed && rows.first >= 0 ==>
              rowsOutputted == |ProbedIndices(rows, |lines|)| && s == RowLines(ProbedIndices(rows, |lines|), lines)
    ensures !failed && rows.first < 0 ==> rowsOutputted == 0 && s == ""
  {
    s := "";
    rowsOutputted := 0;
    var i := rows.first;
    while i <= rows.last
      invariant rows.first <= i
      invariant i > rows.first ==> rows.first >= 0
      invariant rows.first >= 0 ==> i - rows.first <= |ProbedIndices(rows, |lines|)|
      invariant rows.first >= 0 ==> s == RowLines(ProbedIndices(rows, |lines|)[..i - rows.first], lines)
      invariant rowsOutputted == i - rows.first
      invariant rows.first < 0 ==> i == rows.first && s == ""
      decreases rows.last - i
    {
      if i < 0 {
        return s, rowsOutputted, true;
      }
      if i >= |lines| {
        break;
      }
      RowLinesAppend(ProbedIndices(rows, |lines|), lines, i - rows.first);
      assert lines[i] == LineAt(lines, i);
      s := s + RowLine(i, lines[i]);
      rowsOutputted := rowsOutputted + 1;
      i := i + 1;
    }
    if rows.first >= 0 {
      ghost var probed := ProbedIndices(rows, |lines|);
      assert probed[..rowsOutputted] == probed;
    }
    failed := false;
  }

  /**
   * The dump of a grid whose size is unknown: the probed rows, then
   * "possibly more" when `rows.size` rows were printed and "--" otherwise.
   */
  method DumpProbing(prefix: string, rows: Ranges.IntRange, lines: seq<string>) returns (r: Result<string, GridFailure>)
    ensures r.Err? <==> rows.first <= rows.last && rows.first < 0
    ensures r.Err? ==> r.error == NegativeRowIndex(rows.first)
    ensures r.Ok? && rows.first >= 0 ==>
              var probed := ProbedIndices(rows, |lines|);
              r.value == prefix + RowLines(probed, lines)
                         + (if |probed| == Ranges.Size(rows) then POSSIBLY_MORE else NO_MORE)
    ensures r.Ok? && rows.first < 0 ==> r.value == prefix + (if 0 == Ranges.Size(rows) then POSSIBLY_MORE else NO_MORE)
  {
    var body, rowsOutputted, failed := ProbeRows(rows, lines);
    if failed {
      return Err(NegativeRowIndex(rows.first));
    }
    if rowsOutputted == Ranges.Size(rows) {
      return Ok(prefix + body + POSSIBLY_MORE);
    } else {
      return Ok(prefix + body + NO_MORE);
    }
  }

  /**
   * `_dump(rows)`: the grid's description, the column header line, then the
   * rows: a tree grid dumps the lines of its printed tree, a plain grid its
   * formatted rows; with a known size each displayed row and the count left
   * out, otherwise rows until the first missing one.
   */
  method Dump<T>(title: string, columns: seq<Column>, sortOrder: seq<SortOrder>, src: Source<T>,
                 format: T -> seq<string>, useAscii: bool, rows: Ranges.IntRange)
    returns (r: Result<string, GridFailure>)
    ensures src.TreeSource? ==>
              var tree := DataSourceToPrettyTree(src.rootSize, src.roots, format);
              && (tree.Err? ==> r == Err(tree.error))
              && (tree.Ok? ==>
                    var lines := TreeDumpLines(tree.value, useAscii);
                    r == Ok(title + "\n" + HeaderLine(columns, sortOrder)
                            + RowLines(DisplayIndices(rows, |lines|), lines)
                            + Trailer(|lines| - |DisplayIndices(rows, |lines|)|)))
    ensures src.ListSource? && src.definedSize ==>
              var lines := FormattedRows(src.items, format);
              r == Ok(title + "\n" + HeaderLine(columns, sortOrder)
                      + RowLines(DisplayIndices(rows, |lines|), lines)
                      + Trailer(|lines| - |DisplayIndices(rows, |lines|)|))
    ensures src.ListSource? && !src.definedSize ==> (r.Err? <==> rows.first <= rows.last && rows.first < 0)
    ensures src.ListSource? && !src.definedSize && r.Err? ==> r.error == NegativeRowIndex(rows.first)
    ensures src.ListSource? && !src.definedSize && r.Ok? && rows.first >= 0 ==>
              var probed := ProbedIndices(rows, |src.items|);
              r.value == title + "\n" + HeaderLine(columns, sortOrder) + RowLines(probed, FormattedRows(src.items, format))
                         + (if |probed| == Ranges.Size(rows) then POSSIBLY_MORE else NO_MORE)
    ensures src.ListSource? && !src.definedSize && r.Ok? && rows.first < 0 ==>
              r.value == title + "\n" + HeaderLine(columns, sortOrder) + (if 0 == Ranges.Size(rows) then POSSIBLY_MORE else NO_MORE)
  {
    var prefix := title + "\n" + HeaderLine(columns, sortOrder);
    if src.TreeSource? {
      var tree := DataSourceToPrettyTree(src.rootSize, src.roots, format);
      if tree.Err? {
        return Err(tree.error);
      }
      var printed := PPT.Print(tree.value, useAscii);
      var lines := Text.NonBlank(Text.Split(printed, '\n'));
      lines := if |lines| == 0 then [] else lines[1..];
      var s := DumpSized(prefix, rows, lines);
      r := Ok(s);
    } else if src.definedSize {
      var s := DumpSized(prefix, rows, FormattedRows(src.items, format));
      r := Ok(s);
    } else {
      r := DumpProbing(prefix, rows, FormattedRows(src.items, format));
    }
  }
}
