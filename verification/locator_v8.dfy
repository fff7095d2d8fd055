/**
 * The Vaadin 8 component locator (v8 Locator.kt): its search specification
 * with space-separated style criteria, the pre-order tree iterator the
 * search drives, and `_find`.
 */
module LocatorV8 {
  import opened Wrappers
  import Text
  import Seqs
  import opened Ranges
  import Locator

  /** What the Vaadin 8 locator reads from one component. */
  datatype Component8 = Component8(
    types: set<string>,           // names of the classes and interfaces the component is an instance of
    id: Option<string>,           // `id`
    caption: Option<string>,      // `caption`
    placeholder: Option<string>,  // the `placeholder` extension, absent for components without one
    styleNames: set<string>,      // the non-blank space-separated words of `styleName`
    value: Option<string>,        // the `value` extension: a Label's or HasValue's value, None otherwise
    visible: bool,                // own `isVisible` flag
    enabled: bool,                // own `isEnabled` flag
    hasValue: bool,               // implements HasValue
    readOnly: bool,               // HasValue.isReadOnly
    children: seq<Component8>)    // the HasComponents children, empty for other components

  /** A component with its ancestors, parent first: its `parent` chain. */
  datatype Node = Node(c: Component8, ancestors: seq<Component8>)

  /** The children of a node, each with its parent chain. */
  function Kids(n: Node): (r: seq<Node>)
    ensures |r| == |n.c.children|
    ensures forall i :: 0 <= i < |r| ==> r[i] == Node(n.c.children[i], [n.c] + n.ancestors)
  {
    seq(|n.c.children|, i requires 0 <= i < |n.c.children| => Node(n.c.children[i], [n.c] + n.ancestors))
  }

  /** The pre-order depth-first walk: the node, then each child's walk in order. */
  function Walk(c: Component8, ancestors: seq<Component8>): (r: seq<Node>)
    ensures |r| >= 1 && r[0] == Node(c, ancestors)
    decreases c, 1
  {
    [Node(c, ancestors)] + WalkForest(c.children, [c] + ancestors)
  }

  /** The walks of sibling subtrees, concatenated in order. */
  function WalkForest(cs: seq<Component8>, ancestors: seq<Component8>): seq<Node>
    decreases cs, 0
  {
    if |cs| == 0 then [] else Walk(cs[0], ancestors) + WalkForest(cs[1..], ancestors)
  }

  /** The walks of a list of nodes, concatenated in order. */
  function WalkAll(q: seq<Node>): seq<Node>
  {
    if |q| == 0 then [] else Walk(q[0].c, q[0].ancestors) + WalkAll(q[1..])
  }

  lemma {:induction false} WalkForestIsWalkAll(cs: seq<Component8>, parent: Component8, ancestors: seq<Component8>)
    requires |cs| <= |parent.children| && cs == parent.children[|parent.children| - |cs|..]
    ensures WalkForest(cs, [parent] + ancestors)
         == WalkAll(Kids(Node(parent, ancestors))[|parent.children| - |cs|..])
    decreases |cs|
  {
    var kids := Kids(Node(parent, ancestors));
    var k := |parent.children| - |cs|;
    if |cs| > 0 {
      assert kids[k..][0] == Node(cs[0], [parent] + ancestors);
      assert kids[k..][1..] == kids[k + 1..];
      WalkForestIsWalkAll(cs[1..], parent, ancestors);
    }
  }

  /** A node's walk is the node followed by the walks of its children. */
  lemma WalkUnfold(n: Node)
    ensures Walk(n.c, n.ancestors) == [n] + WalkAll(Kids(n))
  {
    WalkForestIsWalkAll(n.c.children, n.c, n.ancestors);
  }

  lemma {:induction false} WalkAllAppend(a: seq<Node>, b: seq<Node>)
    ensures WalkAll(a + b) == WalkAll(a) + WalkAll(b)
  {
    if |a| == 0 {
      assert a + b == b;
    } else {
      assert (a + b)[0] == a[0];
      assert (a + b)[1..] == a[1..] + b;
      WalkAllAppend(a[1..], b);
    }
  }

  /** Popping the head of the deque and pushing its children leaves the rest of the walk. */
  lemma PopStep(q: seq<Node>)
    requires |q| > 0
    ensures WalkAll(q) == [q[0]] + WalkAll(Kids(q[0]) + q[1..])
  {
    var h, rest := q[0], q[1..];
    WalkUnfold(h);
    WalkAllAppend(Kids(h), rest);
    Seqs.Regroup([h], WalkAll(Kids(h)), WalkAll(rest));
  }

  /** Why `next()` fails. */
  datatype IteratorError = NoSuchElement

  /**
   * `PreorderTreeIterator`: a deque whose head is the next node to return.
   * `next()` pops the head and pushes its children in reverse, so that the
   * first child ends up on top.
   */
  class PreorderTreeIterator {
    var queue: seq<Node>

    /** The nodes still to be returned, in the order `next()` returns them. */
    function Remaining(): seq<Node>
      reads this
    {
      WalkAll(queue)
    }

    constructor(root: Node)
      ensures queue == [root]
      ensures Remaining() == Walk(root.c, root.ancestors)
    {
      queue := [root];
      new;
      assert queue[1..] == [];
      assert WalkAll(queue) == Walk(root.c, root.ancestors) + WalkAll(queue[1..]);
      assert Walk(root.c, root.ancestors) + [] == Walk(root.c, root.ancestors);
    }

    /** `hasNext()`: the deque is not empty. */
    function HasNext(): (b: bool)
      reads this
      ensures b <==> |Remaining()| > 0
    {
      |queue| > 0
    }

    /**
     * `next()`: returns the next node of the pre-order walk and advances past
     * it; on an exhausted iterator it fails and changes nothing.
     */
    method Next() returns (r: Result<Node, IteratorError>)
      modifies this
      ensures old(|queue|) == 0 ==> r == Err(NoSuchElement) && queue == old(queue)
      ensures old(|queue|) > 0 ==> r.Ok? && queue == Kids(r.value) + old(queue)[1..]
      ensures old(|Remaining()|) > 0 ==> r.Ok? && r.value == old(Remaining())[0]
      ensures old(|Remaining()|) > 0 ==> Remaining() == old(Remaining())[1..]
    {
      if |queue| == 0 {
        return Err(NoSuchElement);
      }
      var result := queue[0];
      var rest := queue[1..];
      PopStep(queue);
      queue := rest;
      var kids := Kids(result);
      var i := |kids|;
      while i > 0
        invariant 0 <= i <= |kids|
        invariant queue == kids[i..] + rest
      {
        i := i - 1;
        assert kids[i..] == [kids[i]] + kids[i + 1..];
        Seqs.Regroup([kids[i]], kids[i + 1..], rest);
        queue := [kids[i]] + queue;
      }
      assert kids[0..] == kids;
      r := Ok(result);
    }
  }

  /** `isEffectivelyVisible()`: the own flag, and the parent (if any) effectively visible. */
  predicate EffectivelyVisible(c: Component8, ancestors: seq<Component8>)
    decreases |ancestors|
  {
    c.visible && (|ancestors| == 0 || EffectivelyVisible(ancestors[0], ancestors[1..]))
  }

  /** A component is effectively visible iff it and every ancestor are visible. */
  lemma {:induction false} EffectivelyVisibleIff(c: Component8, ancestors: seq<Component8>)
    ensures EffectivelyVisible(c, ancestors)
        <==> c.visible && forall i :: 0 <= i < |ancestors| ==> ancestors[i].visible
    decreases |ancestors|
  {
    if |ancestors| > 0 {
      EffectivelyVisibleIff(ancestors[0], ancestors[1..]);
      assert forall i :: 1 <= i < |ancestors| ==> ancestors[i] == ancestors[1..][i - 1];
    }
  }

  /**
   * `hasAllStyleNames`: a criterion holding a space is split into its
   * non-blank words, each of which must be a style name; a criterion without
   * a space must itself be one.
   */
  predicate HasAllStyleNames(c: Component8, style: string)
    decreases if ' ' in style then 1 else 0
  {
    if ' ' in style then forall t :: t in Text.Tokens(style) ==> HasAllStyleNames(c, t)
    else style in c.styleNames
  }

  /** `doesntHaveAnyStyleNames`: no word of the criterion is a style name. */
  predicate DoesntHaveAnyStyleNames(c: Component8, style: string)
  {
    if ' ' in style then forall t :: t in Text.Tokens(style) ==> !HasAllStyleNames(c, t)
    else style !in c.styleNames
  }

  /**
   * For a criterion that is not blank, `styles` demands every space-separated
   * word and `withoutStyles` forbids every one.
   */
  lemma StyleNamesIff(c: Component8, style: string)
    requires !Text.IsBlank(style)
    ensures HasAllStyleNames(c, style) <==> forall t :: t in Text.Tokens(style) ==> t in c.styleNames
    ensures DoesntHaveAnyStyleNames(c, style) <==> forall t :: t in Text.Tokens(style) ==> t !in c.styleNames
  {
    if ' ' !in style {
      Text.TokensOfWord(style);
    }
  }

  /** The v8 `SearchSpec`: every criterion except `clazz` may be left unset. */
  datatype SearchSpec = SearchSpec(
    clazz: Locator.ClassRef,
    id: Option<string>,
    caption: Option<string>,
    placeholder: Option<string>,
    styles: Option<string>,
    withoutStyles: Option<string>,
    count: IntRange,
    value: Option<string>,
    predicates: seq<Pred>)

  /** A user-supplied `Predicate<T>` with its `toString()`. */
  datatype Pred = Pred(test: Component8 -> bool, description: string)

  /** `SearchSpec(clazz)`. */
  function DefaultSpec(clazz: Locator.ClassRef): SearchSpec
  {
    SearchSpec(clazz, None, None, None, None, None, Locator.ANY_COUNT, None, [])
  }

  /** `clazz.isInstance(component)`. */
  predicate IsInstance(clazz: Locator.ClassRef, c: Component8)
  {
    clazz.name in c.types
  }

  /** One of the checks `toPredicate` collects. */
  datatype Check =
    | InstanceOf(clazz: Locator.ClassRef)
    | IdIs(id: string)
    | CaptionIs(caption: string)
    | PlaceholderIs(placeholder: string)
    | Styles(styles: string)
    | NoStyles(styles: string)
    | ValueIs(value: string)
    | Custom(clazz: Locator.ClassRef, pred: Pred)

  predicate Holds(k: Check, c: Component8)
  {
    match k
    case InstanceOf(cl) => IsInstance(cl, c)
    case IdIs(id) => c.id == Some(id)
    case CaptionIs(caption) => c.caption == Some(caption)
    case PlaceholderIs(p) => c.placeholder == Some(p)
    case Styles(s) => HasAllStyleNames(c, s)
    case NoStyles(s) => DoesntHaveAnyStyleNames(c, s)
    case ValueIs(v) => c.value == Some(v)
    case Custom(cl, p) => IsInstance(cl, c) && p.test(c)
  }

  /** The checks `toPredicate` adds for the set criteria, in its order. */
  function CriterionChecks(spec: SearchSpec): seq<Check>
  {
    Locator.When(spec.id.Some?, IdIs(spec.id.GetOr("")))
    + Locator.When(spec.caption.Some?, CaptionIs(spec.caption.GetOr("")))
    + Locator.When(spec.placeholder.Some?, PlaceholderIs(spec.placeholder.GetOr("")))
    + Locator.When(Locator.Given(spec.styles), Styles(spec.styles.GetOr("")))
    + Locator.When(Locator.Given(spec.withoutStyles), NoStyles(spec.withoutStyles.GetOr("")))
    + Locator.When(spec.value.Some?, ValueIs(spec.value.GetOr("")))
  }

  /** One check per custom predicate, each also requiring the class. */
  function CustomChecks(clazz: Locator.ClassRef, preds: seq<Pred>): (ks: seq<Check>)
    ensures |ks| == |preds|
    ensures forall i :: 0 <= i < |preds| ==> ks[i] == Custom(clazz, preds[i])
  {
    seq(|preds|, i requires 0 <= i < |preds| => Custom(clazz, preds[i]))
  }

  /** The checks of `toPredicate`, in the order it adds them. */
  function Checks(spec: SearchSpec): (ks: seq<Check>)
    ensures |ks| >= 1 && ks[0] == InstanceOf(spec.clazz)
  {
    [InstanceOf(spec.clazz)] + CriterionChecks(spec) + CustomChecks(spec.clazz, spec.predicates)
  }

  /** `and()`: every check of the list holds. */
  predicate AllHold(ks: seq<Check>, c: Component8)
  {
    |ks| == 0 || (Holds(ks[0], c) && AllHold(ks[1..], c))
  }

  lemma {:induction false} AllHoldAppend(a: seq<Check>, b: seq<Check>, c: Component8)
    ensures AllHold(a + b, c) <==> AllHold(a, c) && AllHold(b, c)
  {
    if |a| == 0 {
      assert a + b == b;
    } else {
      assert (a + b)[0] == a[0];
      assert (a + b)[1..] == a[1..] + b;
      AllHoldAppend(a[1..], b, c);
    }
  }

  lemma {:induction false} AllHoldEach(ks: seq<Check>, c: Component8)
    ensures AllHold(ks, c) <==> forall i :: 0 <= i < |ks| ==> Holds(ks[i], c)
  {
    if |ks| > 0 {
      AllHoldEach(ks[1..], c);
      assert forall i :: 1 <= i < |ks| ==> ks[i] == ks[1..][i - 1];
    }
  }

  /** A check added only when its criterion is set holds, or the criterion is unset. */
  lemma AllHoldWhen(b: bool, k: Check, c: Component8)
    ensures AllHold(Locator.When(b, k), c) <==> (b ==> Holds(k, c))
  {
    if b {
      assert Locator.When(b, k)[1..] == [];
    }
  }

  /** The compiled predicate `toPredicate()`. */
  predicate Matches(spec: SearchSpec, c: Component8)
  {
    AllHold(Checks(spec), c)
  }

  /** The optional criteria, each read on its own. */
  predicate CriteriaHold(spec: SearchSpec, c: Component8)
  {
    && (spec.id.Some? ==> c.id == spec.id)
    && (spec.caption.Some? ==> c.caption == spec.caption)
    && (spec.placeholder.Some? ==> c.placeholder == spec.placeholder)
    && (Locator.Given(spec.styles) ==> HasAllStyleNames(c, spec.styles.value))
    && (Locator.Given(spec.withoutStyles) ==> DoesntHaveAnyStyleNames(c, spec.withoutStyles.value))
    && (spec.value.Some? ==> c.value == spec.value)
  }

  /** What a matching component satisfies, criterion by criterion. */
  predicate MatchesEveryField(spec: SearchSpec, c: Component8)
  {
    && IsInstance(spec.clazz, c)
    && CriteriaHold(spec, c)
    && (forall i :: 0 <= i < |spec.predicates| ==> spec.predicates[i].test(c))
  }

  /** The check list holds exactly when each criterion's part of it holds. */
  lemma CriterionChecksSplit(spec: SearchSpec, c: Component8)
    ensures AllHold(CriterionChecks(spec), c) <==>
      AllHold(Locator.When(spec.id.Some?, IdIs(spec.id.GetOr(""))), c)
      && AllHold(Locator.When(spec.caption.Some?, CaptionIs(spec.caption.GetOr(""))), c)
      && AllHold(Locator.When(spec.placeholder.Some?, PlaceholderIs(spec.placeholder.GetOr(""))), c)
      && AllHold(Locator.When(Locator.Given(spec.styles), Styles(spec.styles.GetOr(""))), c)
      && AllHold(Locator.When(Locator.Given(spec.withoutStyles), NoStyles(spec.withoutStyles.GetOr(""))), c)
      && AllHold(Locator.When(spec.value.Some?, ValueIs(spec.value.GetOr(""))), c)
  {
    var w0 := Locator.When(spec.id.Some?, IdIs(spec.id.GetOr("")));
    var w1 := Locator.When(spec.caption.Some?, CaptionIs(spec.caption.GetOr("")));
    var w2 := Locator.When(spec.placeholder.Some?, PlaceholderIs(spec.placeholder.GetOr("")));
    var w3 := Locator.When(Locator.Given(spec.styles), Styles(spec.styles.GetOr("")));
    var w4 := Locator.When(Locator.Given(spec.withoutStyles), NoStyles(spec.withoutStyles.GetOr("")));
    var w5 := Locator.When(spec.value.Some?, ValueIs(spec.value.GetOr("")));
    AllHoldAppend(w0, w1, c);
    AllHoldAppend(w0 + w1, w2, c);
    AllHoldAppend(w0 + w1 + w2, w3, c);
    AllHoldAppend(w0 + w1 + w2 + w3, w4, c);
    AllHoldAppend(w0 + w1 + w2 + w3 + w4, w5, c);
  }

  /** The criteria hold exactly when each criterion, read on its own, holds. */
  lemma CriteriaFromEach(spec: SearchSpec, c: Component8, h0: bool, h1: bool, h2: bool, h3: bool, h4: bool, h5: bool)
    requires h0 <==> (spec.id.Some? ==> c.id == spec.id)
    requires h1 <==> (spec.caption.Some? ==> c.caption == spec.caption)
    requires h2 <==> (spec.placeholder.Some? ==> c.placeholder == spec.placeholder)
    requires h3 <==> (Locator.Given(spec.styles) ==> HasAllStyleNames(c, spec.styles.value))
    requires h4 <==> (Locator.Given(spec.withoutStyles) ==> DoesntHaveAnyStyleNames(c, spec.withoutStyles.value))
    requires h5 <==> (spec.value.Some? ==> c.value == spec.value)
    ensures CriteriaHold(spec, c) <==> h0 && h1 && h2 && h3 && h4 && h5
  {
  }

  /** The parts for the id, caption, placeholder and value hold exactly when those criteria do. */
  lemma FieldParts(spec: SearchSpec, c: Component8)
    ensures AllHold(Locator.When(spec.id.Some?, IdIs(spec.id.GetOr(""))), c) <==> (spec.id.Some? ==> c.id == spec.id)
    ensures AllHold(Locator.When(spec.caption.Some?, CaptionIs(spec.caption.GetOr(""))), c) <==> (spec.caption.Some? ==> c.caption == spec.caption)
    ensures AllHold(Locator.When(spec.placeholder.Some?, PlaceholderIs(spec.placeholder.GetOr(""))), c) <==> (spec.placeholder.Some? ==> c.placeholder == spec.placeholder)
    ensures AllHold(Locator.When(spec.value.Some?, ValueIs(spec.value.GetOr(""))), c) <==> (spec.value.Some? ==> c.value == spec.value)
  {
    AllHoldWhen(spec.id.Some?, IdIs(spec.id.GetOr("")), c);
    AllHoldWhen(spec.caption.Some?, CaptionIs(spec.caption.GetOr("")), c);
    AllHoldWhen(spec.placeholder.Some?, PlaceholderIs(spec.placeholder.GetOr("")), c);
    AllHoldWhen(spec.value.Some?, ValueIs(spec.value.GetOr("")), c);
  }

  /** The parts for the style criteria hold exactly when those criteria do. */
  lemma StyleParts(spec: SearchSpec, c: Component8)
    ensures AllHold(Locator.When(Locator.Given(spec.styles), Styles(spec.styles.GetOr(""))), c) <==> (Locator.Given(spec.styles) ==> HasAllStyleNames(c, spec.styles.value))
    ensures AllHold(Locator.When(Locator.Given(spec.withoutStyles), NoStyles(spec.withoutStyles.GetOr(""))), c) <==> (Locator.Given(spec.withoutStyles) ==> DoesntHaveAnyStyleNames(c, spec.withoutStyles.value))
  {
    AllHoldWhen(Locator.Given(spec.styles), Styles(spec.styles.GetOr("")), c);
    AllHoldWhen(Locator.Given(spec.withoutStyles), NoStyles(spec.withoutStyles.GetOr("")), c);
  }

  /** Each criterion's part of the check list holds exactly when that criterion does. */
  lemma CriteriaFromParts(spec: SearchSpec, c: Component8)
    ensures CriteriaHold(spec, c) <==>
      AllHold(Locator.When(spec.id.Some?, IdIs(spec.id.GetOr(""))), c)
      && AllHold(Locator.When(spec.caption.Some?, CaptionIs(spec.caption.GetOr(""))), c)
      && AllHold(Locator.When(spec.placeholder.Some?, PlaceholderIs(spec.placeholder.GetOr(""))), c)
      && AllHold(Locator.When(Locator.Given(spec.styles), Styles(spec.styles.GetOr(""))), c)
      && AllHold(Locator.When(Locator.Given(spec.withoutStyles), NoStyles(spec.withoutStyles.GetOr(""))), c)
      && AllHold(Locator.When(spec.value.Some?, ValueIs(spec.value.GetOr(""))), c)
  {
    FieldParts(spec, c);
    StyleParts(spec, c);
    CriteriaFromEach(spec, c,
      AllHold(Locator.When(spec.id.Some?, IdIs(spec.id.GetOr(""))), c),
      AllHold(Locator.When(spec.caption.Some?, CaptionIs(spec.caption.GetOr(""))), c),
      AllHold(Locator.When(spec.placeholder.Some?, PlaceholderIs(spec.placeholder.GetOr(""))), c),
      AllHold(Locator.When(Locator.Given(spec.styles), Styles(spec.styles.GetOr(""))), c),
      AllHold(Locator.When(Locator.Given(spec.withoutStyles), NoStyles(spec.withoutStyles.GetOr(""))), c),
      AllHold(Locator.When(spec.value.Some?, ValueIs(spec.value.GetOr(""))), c));
  }

  lemma CriterionChecksIff(spec: SearchSpec, c: Component8)
    ensures AllHold(CriterionChecks(spec), c) <==> CriteriaHold(spec, c)
  {
    CriterionChecksSplit(spec, c);
    CriteriaFromParts(spec, c);
  }

  /**
   * `toPredicate` always requires the class, and is the conjunction of one
   * check per set criterion and one per custom predicate.
   */
  lemma MatchesIff(spec: SearchSpec, c: Component8)
    ensures Matches(spec, c) <==> MatchesEveryField(spec, c)
  {
    CriterionChecksIff(spec, c);
    var custom := CustomChecks(spec.clazz, spec.predicates);
    AllHoldEach(custom, c);
    assert AllHold([InstanceOf(spec.clazz)], c) <==> IsInstance(spec.clazz, c) by {
      assert [InstanceOf(spec.clazz)][1..] == [];
    }
    AllHoldAppend([InstanceOf(spec.clazz)], CriterionChecks(spec), c);
    AllHoldAppend([InstanceOf(spec.clazz)] + CriterionChecks(spec), custom, c);
    if AllHold(custom, c) {
      forall i | 0 <= i < |spec.predicates| ensures spec.predicates[i].test(c) {
        assert Holds(custom[i], c);
      }
    }
    if MatchesEveryField(spec, c) {
      forall i | 0 <= i < |custom| ensures Holds(custom[i], c) {
        assert custom[i] == Custom(spec.clazz, spec.predicates[i]);
      }
    }
  }

  /** The phrases `toString` adds for the criteria other than the count. */
  function CriterionPhrases(spec: SearchSpec): seq<string>
  {
    Locator.Active([
      Locator.Slot(spec.id.Some?, "id='" + spec.id.GetOr("") + "'"),
      Locator.Slot(spec.caption.Some?, "caption='" + spec.caption.GetOr("") + "'"),
      Locator.Slot(spec.placeholder.Some?, "placeholder='" + spec.placeholder.GetOr("") + "'"),
      Locator.Slot(Locator.Given(spec.styles), "styles='" + spec.styles.GetOr("") + "'"),
      Locator.Slot(Locator.Given(spec.withoutStyles), "withoutStyles='" + spec.withoutStyles.GetOr("") + "'"),
      Locator.Slot(spec.value.Some?, "value=" + spec.value.GetOr(""))])
  }

  /** The phrases `toString` joins, in order. */
  function Phrases(spec: SearchSpec): (ps: seq<string>)
    ensures |ps| >= 1 && ps[0] == Locator.ClassName(spec.clazz)
  {
    [Locator.ClassName(spec.clazz)] + CriterionPhrases(spec)
    + Locator.When(Locator.ShowsCount(spec.count), "count=" + spec.count.ToString())
    + seq(|spec.predicates|, i requires 0 <= i < |spec.predicates| => spec.predicates[i].description)
  }

  /** `SearchSpec.toString()`. */
  function ToString(spec: SearchSpec): string
  {
    Text.Join(Phrases(spec), " and ")
  }

  /**
   * `toString` starts with the class name, and mentions the count exactly
   * when it is neither `0..Int.MAX_VALUE` nor `1..1`.
   */
  lemma ToStringSpec(spec: SearchSpec)
    ensures Text.StartsWith(ToString(spec), Locator.ClassName(spec.clazz))
    ensures !Locator.ShowsCount(spec.count) ==> ToString(spec) == ToString(spec.(count := Locator.ANY_COUNT))
    ensures Locator.ShowsCount(spec.count) ==> Text.Contains(ToString(spec), "count=" + spec.count.ToString())
  {
    Locator.JoinStartsWithFirst(Phrases(spec), " and ");
    if Locator.ShowsCount(spec.count) {
      var k := 1 + |CriterionPhrases(spec)|;
      assert Phrases(spec)[k] == "count=" + spec.count.ToString();
      Locator.JoinContainsEach(Phrases(spec), " and ", k);
    } else {
      assert Phrases(spec) == Phrases(spec.(count := Locator.ANY_COUNT));
    }
  }

  /** The filter `find` applies: effectively visible and matching the spec. */
  function Kept(spec: SearchSpec): Node -> bool
  {
    (l: Node) => EffectivelyVisible(l.c, l.ancestors) && Matches(spec, l.c)
  }

  /** The walk entries that are effectively visible and match, in walk order. */
  function VisibleMatches(walk: seq<Node>, spec: SearchSpec): (r: seq<Node>)
    ensures forall l :: l in r <==> l in walk && EffectivelyVisible(l.c, l.ancestors) && Matches(spec, l.c)
    ensures |r| <= |walk|
  {
    Seqs.Filter(walk, Kept(spec))
  }

  /** Filtering keeps walk order: it distributes over concatenation. */
  lemma VisibleMatchesAppend(a: seq<Node>, b: seq<Node>, spec: SearchSpec)
    ensures VisibleMatches(a + b, spec) == VisibleMatches(a, spec) + VisibleMatches(b, spec)
  {
    Seqs.FilterAppend(a, b, Kept(spec));
  }

  /** One step of `find`'s loop: the node taken moves from the remaining walk to the seen part. */
  lemma FindStep(seen: seq<Node>, before: seq<Node>, after: seq<Node>, spec: SearchSpec)
    requires |before| > 0 && after == before[1..]
    ensures (seen + [before[0]]) + after == seen + before
    ensures VisibleMatches(seen + [before[0]], spec)
         == VisibleMatches(seen, spec) + (if Kept(spec)(before[0]) then [before[0]] else [])
  {
    assert before == [before[0]] + after;
    Seqs.Regroup(seen, [before[0]], after);
    VisibleMatchesAppend(seen, [before[0]], spec);
    Seqs.FilterOne(before[0], Kept(spec));
  }

  /**
   * `Component.find(predicate)`: iterates the pre-order walk of the root and
   * keeps, in that order, the effectively visible components that match.
   */
  method Find(root: Node, spec: SearchSpec) returns (result: seq<Node>)
    ensures result == VisibleMatches(Walk(root.c, root.ancestors), spec)
  {
    var it := new PreorderTreeIterator(root);
    ghost var seen: seq<Node> := [];
    result := [];
    while it.HasNext()
      invariant seen + it.Remaining() == Walk(root.c, root.ancestors)
      invariant result == VisibleMatches(seen, spec)
      decreases |it.Remaining()|
    {
      ghost var before := it.Remaining();
      var next := it.Next();
      var n := next.value;
      FindStep(seen, before, it.Remaining(), spec);
      if Kept(spec)(n) {
        result := result + [n];
      }
      seen := seen + [n];
    }
    assert seen + it.Remaining() == seen;
  }

  /**
   * `_find(clazz, block)` on the configured spec: fails when the number of
   * visible matches is outside `count`, naming the reason; otherwise
   * returns them all.
   */
  method FindCounted(root: Node, spec: SearchSpec) returns (r: Result<seq<Node>, Locator.CountFailure>)
    ensures var found := VisibleMatches(Walk(root.c, root.ancestors), spec);
      && (r.Ok? <==> spec.count.Contains(|found|))
      && (r.Ok? ==> r.value == found)
      && (r == Err(Locator.NoVisible) <==> |found| == 0 && !spec.count.Contains(0))
      && (r == Err(Locator.TooFew) <==> 0 < |found| < spec.count.first)
      && (r == Err(Locator.TooMany) <==> 0 < |found| && !spec.count.Contains(|found|) && spec.count.first <= |found|)
  {
    var found := Find(root, spec);
    var verdict := Locator.CountVerdict(|found|, spec.count);
    if verdict.Some? {
      return Err(verdict.value);
    }
    return Ok(found);
  }
}
