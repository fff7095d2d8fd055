/**
 * The Vaadin 10+ component locator (Locator.kt): the search specification,
 * the predicate it compiles to, its textual description, and the lookups
 * `_find`, `_get`, `_expectOne`, `_expectNone` and `_expect` over the
 * depth-first walk of a component tree.
 */
module Locator {
  import opened Wrappers
  import Text
  import Seqs
  import opened Ranges
  import opened Components

  /** A Java class as the locator sees it: its binary name and its simple name. */
  datatype ClassRef = ClassRef(name: string, simpleName: string)

  /** A user-supplied `Predicate<T>` with its `toString()`. */
  datatype Pred = Pred(test: Component -> bool, description: string)

  /** `SearchSpec`: every criterion except `clazz` may be left unset. */
  datatype SearchSpec = SearchSpec(
    clazz: ClassRef,
    id: Option<string>,
    caption: Option<string>,
    placeholder: Option<string>,
    text: Option<string>,
    count: IntRange,
    value: Option<string>,
    classes: Option<string>,
    withoutClasses: Option<string>,
    themes: Option<string>,
    withoutThemes: Option<string>,
    predicates: seq<Pred>)

  /** The default `count`, `0..Int.MAX_VALUE`. */
  const ANY_COUNT: IntRange := IntRange(0, INT_MAX)
  /** The count `_get` and `_expectOne` insist on. */
  const EXACTLY_ONE: IntRange := IntRange(1, 1)
  /** The count `_expectNone` insists on. */
  const NONE: IntRange := IntRange(0, 0)

  /** The class name of the framework's error view. */
  const INTERNAL_SERVER_ERROR: string := "com.vaadin.flow.router.InternalServerError"

  /** `SearchSpec(clazz)`: only the class is constrained. */
  function DefaultSpec(clazz: ClassRef): SearchSpec
  {
    SearchSpec(clazz, None, None, None, None, ANY_COUNT, None, None, None, None, None, [])
  }

  /** `clazz.isInstance(component)`. */
  predicate IsInstance(clazz: ClassRef, c: Component)
  {
    clazz.name in c.types
  }

  /** A space-separated criterion that is set and not blank (`!isNullOrBlank()`). */
  predicate Given(s: Option<string>)
  {
    s.Some? && !Text.IsBlank(s.value)
  }

  /** `hasAllClasses`: a HasStyle component carrying every token as a class name. */
  predicate HasAllClasses(c: Component, classes: string)
  {
    c.hasStyle && forall t :: t in Text.Tokens(classes) ==> t in c.classNames
  }

  /** `doesntHaveAnyClasses`: true for a component without HasStyle. */
  predicate DoesntHaveAnyClasses(c: Component, classes: string)
  {
    !c.hasStyle || forall t :: t in Text.Tokens(classes) ==> t !in c.classNames
  }

  /** `hasAllThemes`. */
  predicate HasAllThemes(c: Component, themes: string)
  {
    forall t :: t in Text.Tokens(themes) ==> t in c.themes
  }

  /** `notContainsThemes`. */
  predicate NotContainsThemes(c: Component, themes: string)
  {
    forall t :: t in Text.Tokens(themes) ==> t !in c.themes
  }

  /** One of the checks `toPredicate` collects. */
  datatype Check =
    | InstanceOf(clazz: ClassRef)
    | IdIs(id: string)
    | CaptionIs(caption: string)
    | PlaceholderIs(placeholder: string)
    | AllClasses(classes: string)
    | NoClasses(classes: string)
    | AllThemes(themes: string)
    | NoThemes(themes: string)
    | TextIs(text: string)
    | ValueIs(value: string)
    | Custom(clazz: ClassRef, pred: Pred)

  /** Whether a component passes one check. */
  predicate Holds(k: Check, c: Component)
  {
    match k
    case InstanceOf(cl) => IsInstance(cl, c)
    case IdIs(id) => c.id == Some(id)
    case CaptionIs(caption) => c.caption == caption
    case PlaceholderIs(p) => c.placeholder == Some(p)
    case AllClasses(cs) => HasAllClasses(c, cs)
    case NoClasses(cs) => DoesntHaveAnyClasses(c, cs)
    case AllThemes(ts) => HasAllThemes(c, ts)
    case NoThemes(ts) => NotContainsThemes(c, ts)
    case TextIs(t) => c.text == t
    case ValueIs(v) => c.hasValue && c.value == Some(v)
    case Custom(cl, p) => IsInstance(cl, c) && p.test(c)
  }

  /** An entry that `toPredicate` or `toString` adds only when its criterion is set. */
  datatype Slot<T> = Slot(active: bool, item: T)

  /** The items of the active slots, in order. */
  function Active<T>(slots: seq<Slot<T>>): (r: seq<T>)
    ensures |r| <= |slots|
  {
    if |slots| == 0 then []
    else if slots[0].active then [slots[0].item] + Active(slots[1..])
    else Active(slots[1..])
  }

  /** A singleton list when the condition holds, else the empty list. */
  function When<T>(b: bool, x: T): seq<T>
  {
    if b then [x] else []
  }

  /** The checks `toPredicate` adds for the set criteria, in its order. */
  function CriterionChecks(spec: SearchSpec): seq<Check>
  {
    When(spec.id.Some?, IdIs(spec.id.GetOr("")))
    + When(spec.caption.Some?, CaptionIs(spec.caption.GetOr("")))
    + When(spec.placeholder.Some?, PlaceholderIs(spec.placeholder.GetOr("")))
    + When(Given(spec.classes), AllClasses(spec.classes.GetOr("")))
    + When(Given(spec.withoutClasses), NoClasses(spec.withoutClasses.GetOr("")))
    + When(Given(spec.themes), AllThemes(spec.themes.GetOr("")))
    + When(Given(spec.withoutThemes), NoThemes(spec.withoutThemes.GetOr("")))
    + When(spec.text.Some?, TextIs(spec.text.GetOr("")))
    + When(spec.value.Some?, ValueIs(spec.value.GetOr("")))
  }

  /** One check per custom predicate, each also requiring the class. */
  function CustomChecks(clazz: ClassRef, preds: seq<Pred>): (ks: seq<Check>)
    ensures |ks| == |preds|
    ensures forall i :: 0 <= i < |preds| ==> ks[i] == Custom(clazz, preds[i])
  {
    seq(|preds|, i requires 0 <= i < |preds| => Custom(clazz, preds[i]))
  }

  /** The list of checks `toPredicate` builds, in the order it adds them. */
  function Checks(spec: SearchSpec): (ks: seq<Check>)
    ensures |ks| >= 1 && ks[0] == InstanceOf(spec.clazz)
  {
    [InstanceOf(spec.clazz)] + CriterionChecks(spec) + CustomChecks(spec.clazz, spec.predicates)
  }

  /** `and()`: every check of the list holds. */
  predicate AllHold(ks: seq<Check>, c: Component)
  {
    |ks| == 0 || (Holds(ks[0], c) && AllHold(ks[1..], c))
  }

  lemma {:induction false} AllHoldAppend(a: seq<Check>, b: seq<Check>, c: Component)
    ensures AllHold(a + b, c) <==> AllHold(a, c) && AllHold(b, c)
  {
    if |a| == 0 {
      assert a + b == b;
    } else {
      assert (a + b)[0] == a[0];
      assert (a + b)[1..] == a[1..] + b;
      AllHoldAppend(a[1..], b, c);
    }
  }

  /** A check added only when its criterion is set holds, or the criterion is unset. */
  lemma AllHoldWhen(b: bool, k: Check, c: Component)
    ensures AllHold(When(b, k), c) <==> (b ==> Holds(k, c))
  {
    if b {
      assert When(b, k)[1..] == [];
    }
  }

  lemma {:induction false} AllHoldEach(ks: seq<Check>, c: Component)
    ensures AllHold(ks, c) <==> forall i :: 0 <= i < |ks| ==> Holds(ks[i], c)
  {
    if |ks| > 0 {
      AllHoldEach(ks[1..], c);
      assert forall i :: 1 <= i < |ks| ==> ks[i] == ks[1..][i - 1];
    }
  }

  /** `toPredicate()`: the `and()` of all checks (the count is not part of it). */
  predicate Matches(spec: SearchSpec, c: Component)
  {
    AllHold(Checks(spec), c)
  }

  /** The optional criteria, each read on its own. */
  predicate CriteriaHold(spec: SearchSpec, c: Component)
  {
    && (spec.id.Some? ==> c.id == spec.id)
    && (spec.caption.Some? ==> c.caption == spec.caption.value)
    && (spec.placeholder.Some? ==> c.placeholder == spec.placeholder)
    && (Given(spec.classes) ==> HasAllClasses(c, spec.classes.value))
    && (Given(spec.withoutClasses) ==> DoesntHaveAnyClasses(c, spec.withoutClasses.value))
    && (Given(spec.themes) ==> HasAllThemes(c, spec.themes.value))
    && (Given(spec.withoutThemes) ==> NotContainsThemes(c, spec.withoutThemes.value))
    && (spec.text.Some? ==> c.text == spec.text.value)
    && (spec.value.Some? ==> c.hasValue && c.value == spec.value)
  }

  /** The criteria read one field at a time: a reference definition of matching. */
  predicate MatchesEveryField(spec: SearchSpec, c: Component)
  {
    && IsInstance(spec.clazz, c)
    && CriteriaHold(spec, c)
    && (forall i :: 0 <= i < |spec.predicates| ==> spec.predicates[i].test(c))
  }

  /** The criteria hold exactly when each criterion, read on its own, holds. */
  lemma CriteriaFromEach(spec: SearchSpec, c: Component, h0: bool, h1: bool, h2: bool, h3: bool, h4: bool,
                         h5: bool, h6: bool, h7: bool, h8: bool)
    requires h0 <==> (spec.id.Some? ==> c.id == spec.id)
    requires h1 <==> (spec.caption.Some? ==> c.caption == spec.caption.value)
    requires h2 <==> (spec.placeholder.Some? ==> c.placeholder == spec.placeholder)
    requires h3 <==> (Given(spec.classes) ==> HasAllClasses(c, spec.classes.value))
    requires h4 <==> (Given(spec.withoutClasses) ==> DoesntHaveAnyClasses(c, spec.withoutClasses.value))
    requires h5 <==> (Given(spec.themes) ==> HasAllThemes(c, spec.themes.value))
    requires h6 <==> (Given(spec.withoutThemes) ==> NotContainsThemes(c, spec.withoutThemes.value))
    requires h7 <==> (spec.text.Some? ==> c.text == spec.text.value)
    requires h8 <==> (spec.value.Some? ==> c.hasValue && c.value == spec.value)
    ensures CriteriaHold(spec, c) <==> h0 && h1 && h2 && h3 && h4 && h5 && h6 && h7 && h8
  {
  }

  /** The check list holds exactly when each criterion's part of it holds. */
  lemma CriterionChecksSplit(spec: SearchSpec, c: Component)
    ensures AllHold(CriterionChecks(spec), c) <==>
      AllHold(When(spec.id.Some?, IdIs(spec.id.GetOr(""))), c)
      && AllHold(When(spec.caption.Some?, CaptionIs(spec.caption.GetOr(""))), c)
      && AllHold(When(spec.placeholder.Some?, PlaceholderIs(spec.placeholder.GetOr(""))), c)
      && AllHold(When(Given(spec.classes), AllClasses(spec.classes.GetOr(""))), c)
      && AllHold(When(Given(spec.withoutClasses), NoClasses(spec.withoutClasses.GetOr(""))), c)
      && AllHold(When(Given(spec.themes), AllThemes(spec.themes.GetOr(""))), c)
      && AllHold(When(Given(spec.withoutThemes), NoThemes(spec.withoutThemes.GetOr(""))), c)
      && AllHold(When(spec.text.Some?, TextIs(spec.text.GetOr(""))), c)
      && AllHold(When(spec.value.Some?, ValueIs(spec.value.GetOr(""))), c)
  {
    var w0 := When(spec.id.Some?, IdIs(spec.id.GetOr("")));
    var w1 := When(spec.caption.Some?, CaptionIs(spec.caption.GetOr("")));
    var w2 := When(spec.placeholder.Some?, PlaceholderIs(spec.placeholder.GetOr("")));
    var w3 := When(Given(spec.classes), AllClasses(spec.classes.GetOr("")));
    var w4 := When(Given(spec.withoutClasses), NoClasses(spec.withoutClasses.GetOr("")));
    var w5 := When(Given(spec.themes), AllThemes(spec.themes.GetOr("")));
    var w6 := When(Given(spec.withoutThemes), NoThemes(spec.withoutThemes.GetOr("")));
    var w7 := When(spec.text.Some?, TextIs(spec.text.GetOr("")));
    var w8 := When(spec.value.Some?, ValueIs(spec.value.GetOr("")));
    AllHoldAppend(w0, w1, c);
    AllHoldAppend(w0 + w1, w2, c);
    AllHoldAppend(w0 + w1 + w2, w3, c);
    AllHoldAppend(w0 + w1 + w2 + w3, w4, c);
    AllHoldAppend(w0 + w1 + w2 + w3 + w4, w5, c);
    AllHoldAppend(w0 + w1 + w2 + w3 + w4 + w5, w6, c);
    AllHoldAppend(w0 + w1 + w2 + w3 + w4 + w5 + w6, w7, c);
    AllHoldAppend(w0 + w1 + w2 + w3 + w4 + w5 + w6 + w7, w8, c);
  }

  /** The parts for the id, caption and placeholder hold exactly when those criteria do. */
  lemma FieldParts(spec: SearchSpec, c: Component)
    ensures AllHold(When(spec.id.Some?, IdIs(spec.id.GetOr(""))), c) <==> (spec.id.Some? ==> c.id == spec.id)
    ensures AllHold(When(spec.caption.Some?, CaptionIs(spec.caption.GetOr(""))), c) <==> (spec.caption.Some? ==> c.caption == spec.caption.value)
    ensures AllHold(When(spec.placeholder.Some?, PlaceholderIs(spec.placeholder.GetOr(""))), c) <==> (spec.placeholder.Some? ==> c.placeholder == spec.placeholder)
  {
    AllHoldWhen(spec.id.Some?, IdIs(spec.id.GetOr("")), c);
    AllHoldWhen(spec.caption.Some?, CaptionIs(spec.caption.GetOr("")), c);
    AllHoldWhen(spec.placeholder.Some?, PlaceholderIs(spec.placeholder.GetOr("")), c);
  }

  /** The parts for the class and theme criteria hold exactly when those criteria do. */
  lemma StyleParts(spec: SearchSpec, c: Component)
    ensures AllHold(When(Given(spec.classes), AllClasses(spec.classes.GetOr(""))), c) <==> (Given(spec.classes) ==> HasAllClasses(c, spec.classes.value))
    ensures AllHold(When(Given(spec.withoutClasses), NoClasses(spec.withoutClasses.GetOr(""))), c) <==> (Given(spec.withoutClasses) ==> DoesntHaveAnyClasses(c, spec.withoutClasses.value))
    ensures AllHold(When(Given(spec.themes), AllThemes(spec.themes.GetOr(""))), c) <==> (Given(spec.themes) ==> HasAllThemes(c, spec.themes.value))
    ensures AllHold(When(Given(spec.withoutThemes), NoThemes(spec.withoutThemes.GetOr(""))), c) <==> (Given(spec.withoutThemes) ==> NotContainsThemes(c, spec.withoutThemes.value))
  {
    AllHoldWhen(Given(spec.classes), AllClasses(spec.classes.GetOr("")), c);
    AllHoldWhen(Given(spec.withoutClasses), NoClasses(spec.withoutClasses.GetOr("")), c);
    AllHoldWhen(Given(spec.themes), AllThemes(spec.themes.GetOr("")), c);
    AllHoldWhen(Given(spec.withoutThemes), NoThemes(spec.withoutThemes.GetOr("")), c);
  }

  /** The parts for the text and value hold exactly when those criteria do. */
  lemma ContentParts(spec: SearchSpec, c: Component)
    ensures AllHold(When(spec.text.Some?, TextIs(spec.text.GetOr(""))), c) <==> (spec.text.Some? ==> c.text == spec.text.value)
    ensures AllHold(When(spec.value.Some?, ValueIs(spec.value.GetOr(""))), c) <==> (spec.value.Some? ==> c.hasValue && c.value == spec.value)
  {
    AllHoldWhen(spec.text.Some?, TextIs(spec.text.GetOr("")), c);
    AllHoldWhen(spec.value.Some?, ValueIs(spec.value.GetOr("")), c);
  }

  /** Each criterion's part of the check list holds exactly when that criterion does. */
  lemma CriteriaFromParts(spec: SearchSpec, c: Component)
    ensures CriteriaHold(spec, c) <==>
      AllHold(When(spec.id.Some?, IdIs(spec.id.GetOr(""))), c)
      && AllHold(When(spec.caption.Some?, CaptionIs(spec.caption.GetOr(""))), c)
      && AllHold(When(spec.placeholder.Some?, PlaceholderIs(spec.placeholder.GetOr(""))), c)
      && AllHold(When(Given(spec.classes), AllClasses(spec.classes.GetOr(""))), c)
      && AllHold(When(Given(spec.withoutClasses), NoClasses(spec.withoutClasses.GetOr(""))), c)
      && AllHold(When(Given(spec.themes), AllThemes(spec.themes.GetOr(""))), c)
      && AllHold(When(Given(spec.withoutThemes), NoThemes(spec.withoutThemes.GetOr(""))), c)
      && AllHold(When(spec.text.Some?, TextIs(spec.text.GetOr(""))), c)
      && AllHold(When(spec.value.Some?, ValueIs(spec.value.GetOr(""))), c)
  {
    FieldParts(spec, c);
    StyleParts(spec, c);
    ContentParts(spec, c);
    CriteriaFromEach(spec, c,
      AllHold(When(spec.id.Some?, IdIs(spec.id.GetOr(""))), c),
      AllHold(When(spec.caption.Some?, CaptionIs(spec.caption.GetOr(""))), c),
      AllHold(When(spec.placeholder.Some?, PlaceholderIs(spec.placeholder.GetOr(""))), c),
      AllHold(When(Given(spec.classes), AllClasses(spec.classes.GetOr(""))), c),
      AllHold(When(Given(spec.withoutClasses), NoClasses(spec.withoutClasses.GetOr(""))), c),
      AllHold(When(Given(spec.themes), AllThemes(spec.themes.GetOr(""))), c),
      AllHold(When(Given(spec.withoutThemes), NoThemes(spec.withoutThemes.GetOr(""))), c),
      AllHold(When(spec.text.Some?, TextIs(spec.text.GetOr(""))), c),
      AllHold(When(spec.value.Some?, ValueIs(spec.value.GetOr(""))), c));
  }

  lemma CriterionChecksIff(spec: SearchSpec, c: Component)
    ensures AllHold(CriterionChecks(spec), c) <==> CriteriaHold(spec, c)
  {
    CriterionChecksSplit(spec, c);
    CriteriaFromParts(spec, c);
  }

  /**
   * The compiled predicate requires the class, and is exactly the conjunction
   * of one check per set criterion plus every custom predicate.
   */
  lemma MatchesIff(spec: SearchSpec, c: Component)
    ensures Matches(spec, c) <==> MatchesEveryField(spec, c)
    ensures Matches(spec, c) ==> IsInstance(spec.clazz, c)
  {
    CriterionChecksIff(spec, c);
    var custom := CustomChecks(spec.clazz, spec.predicates);
    AllHoldEach(custom, c);
    assert AllHold([InstanceOf(spec.clazz)], c) <==> IsInstance(spec.clazz, c) by {
      assert [InstanceOf(spec.clazz)][1..] == [];
    }
    AllHoldAppend([InstanceOf(spec.clazz)], CriterionChecks(spec), c);
    AllHoldAppend([InstanceOf(spec.clazz)] + CriterionChecks(spec), custom, c);
    if AllHold(custom, c) {
      forall i | 0 <= i < |spec.predicates| ensures spec.predicates[i].test(c) {
        assert Holds(custom[i], c);
      }
    }
    if MatchesEveryField(spec, c) {
      forall i | 0 <= i < |custom| ensures Holds(custom[i], c) {
        assert custom[i] == Custom(spec.clazz, spec.predicates[i]);
      }
    }
  }

  /** A blank class or theme criterion adds no constraint: it matches like an unset one. */
  lemma BlankCriteriaIgnored(spec: SearchSpec, c: Component, blank: string)
    requires Text.IsBlank(blank)
    ensures Matches(spec.(classes := Some(blank)), c) == Matches(spec.(classes := None), c)
    ensures Matches(spec.(withoutClasses := Some(blank)), c) == Matches(spec.(withoutClasses := None), c)
    ensures Matches(spec.(themes := Some(blank)), c) == Matches(spec.(themes := None), c)
    ensures Matches(spec.(withoutThemes := Some(blank)), c) == Matches(spec.(withoutThemes := None), c)
  {
    MatchesIff(spec.(classes := Some(blank)), c);
    MatchesIff(spec.(classes := None), c);
    MatchesIff(spec.(withoutClasses := Some(blank)), c);
    MatchesIff(spec.(withoutClasses := None), c);
    MatchesIff(spec.(themes := Some(blank)), c);
    MatchesIff(spec.(themes := None), c);
    MatchesIff(spec.(withoutThemes := Some(blank)), c);
    MatchesIff(spec.(withoutThemes := None), c);
  }

  /**
   * A component without HasStyle never matches a non-blank `classes`
   * criterion, and always passes a `withoutClasses` one.
   */
  lemma ClassesOnUnstyled(spec: SearchSpec, c: Component)
    requires !c.hasStyle
    ensures Given(spec.classes) ==> !Matches(spec, c)
    ensures Matches(spec.(withoutClasses := None), c) ==> Matches(spec, c)
  {
    MatchesIff(spec, c);
    MatchesIff(spec.(withoutClasses := None), c);
  }

  /** A criterion token list: a space-separated criterion requires each of its words. */
  lemma ClassTokens(c: Component, classes: string)
    requires c.hasStyle && ' ' !in classes && !Text.IsBlank(classes)
    ensures HasAllClasses(c, classes) <==> classes in c.classNames
    ensures DoesntHaveAnyClasses(c, classes) <==> classes !in c.classNames
  {
    Text.TokensOfWord(classes);
  }

  /** The class as `toString` prints it: the simple name, or the full name when that is blank. */
  function ClassName(clazz: ClassRef): string
  {
    if Text.IsBlank(clazz.simpleName) then clazz.name else clazz.simpleName
  }

  /** Whether `toString` mentions the count: not for `0..Int.MAX_VALUE` nor `1..1`. */
  predicate ShowsCount(count: IntRange)
  {
    count != ANY_COUNT && count != EXACTLY_ONE
  }

  /** The phrases `toString` adds for the criteria other than the count. */
  function CriterionPhrases(spec: SearchSpec): seq<string>
  {
    When(spec.id.Some?, "id='" + spec.id.GetOr("") + "'")
    + When(spec.caption.Some?, "caption='" + spec.caption.GetOr("") + "'")
    + When(spec.placeholder.Some?, "placeholder='" + spec.placeholder.GetOr("") + "'")
    + When(spec.text.Some?, "text='" + spec.text.GetOr("") + "'")
    + When(Given(spec.classes), "classes='" + spec.classes.GetOr("") + "'")
    + When(Given(spec.withoutClasses), "withoutClasses='" + spec.withoutClasses.GetOr("") + "'")
    + When(Given(spec.themes), "themes='" + spec.themes.GetOr("") + "'")
    + When(Given(spec.withoutThemes), "withoutThemes='" + spec.withoutThemes.GetOr("") + "'")
    + When(spec.value.Some?, "value=" + spec.value.GetOr(""))
  }

  /** The descriptions of the custom predicates. */
  function PredicatePhrases(preds: seq<Pred>): (ps: seq<string>)
    ensures |ps| == |preds|
  {
    seq(|preds|, i requires 0 <= i < |preds| => preds[i].description)
  }

  /** The phrases `toString` joins, in order. */
  function Phrases(spec: SearchSpec): (ps: seq<string>)
    ensures |ps| >= 1 && ps[0] == ClassName(spec.clazz)
  {
    [ClassName(spec.clazz)] + CriterionPhrases(spec)
    + When(ShowsCount(spec.count), "count=" + spec.count.ToString())
    + PredicatePhrases(spec.predicates)
  }

  /** `SearchSpec.toString()`. */
  function ToString(spec: SearchSpec): string
  {
    Text.Join(Phrases(spec), " and ")
  }

  lemma {:induction false} JoinStartsWithFirst(parts: seq<string>, sep: string)
    requires |parts| >= 1
    ensures Text.StartsWith(Text.Join(parts, sep), parts[0])
  {
    var j := Text.Join(parts, sep);
    if |parts| > 1 {
      assert j == parts[0] + (sep + Text.Join(parts[1..], sep));
      assert j[..|parts[0]|] == parts[0];
    }
  }

  lemma {:induction false} JoinContainsEach(parts: seq<string>, sep: string, k: nat)
    requires k < |parts|
    ensures Text.Contains(Text.Join(parts, sep), parts[k])
  {
    var j := Text.Join(parts, sep);
    if k == 0 {
      JoinStartsWithFirst(parts, sep);
      assert Text.OccursAt(j, parts[0], 0);
    } else {
      var rest := Text.Join(parts[1..], sep);
      JoinContainsEach(parts[1..], sep, k - 1);
      var i :| 0 <= i <= |rest| - |parts[k]| && Text.OccursAt(rest, parts[k], i);
      var off := |parts[0]| + |sep|;
      assert j == parts[0] + sep + rest;
      assert j[off + i..off + i + |parts[k]|] == rest[i..i + |parts[k]|];
      assert Text.OccursAt(j, parts[k], off + i);
    }
  }

  /**
   * `toString` starts with the class name; a spec with only its class set
   * prints as just the class name.
   */
  lemma ToStringStartsWithClass(spec: SearchSpec)
    ensures Text.StartsWith(ToString(spec), ClassName(spec.clazz))
    ensures ToString(DefaultSpec(spec.clazz)) == ClassName(spec.clazz)
    ensures ToString(DefaultSpec(spec.clazz).(count := EXACTLY_ONE)) == ClassName(spec.clazz)
  {
    JoinStartsWithFirst(Phrases(spec), " and ");
    CriterionPhrasesOfDefault(DefaultSpec(spec.clazz));
    CriterionPhrasesOfDefault(DefaultSpec(spec.clazz).(count := EXACTLY_ONE));
    assert Phrases(DefaultSpec(spec.clazz)) == [ClassName(spec.clazz)];
    assert Phrases(DefaultSpec(spec.clazz).(count := EXACTLY_ONE)) == [ClassName(spec.clazz)];
  }

  /** A spec whose optional criteria are all unset adds no criterion phrase. */
  lemma CriterionPhrasesOfDefault(spec: SearchSpec)
    requires spec.id.None? && spec.caption.None? && spec.placeholder.None? && spec.text.None? && spec.value.None?
    requires spec.classes.None? && spec.withoutClasses.None? && spec.themes.None? && spec.withoutThemes.None?
    ensures CriterionPhrases(spec) == []
  {
  }

  /** The count `0..Int.MAX_VALUE` and `1..1` are never printed; any other count is. */
  lemma ToStringCount(spec: SearchSpec)
    ensures !ShowsCount(spec.count) ==> ToString(spec) == ToString(spec.(count := ANY_COUNT))
    ensures ShowsCount(spec.count) ==> Text.Contains(ToString(spec), "count=" + spec.count.ToString())
  {
    if ShowsCount(spec.count) {
      var ps := Phrases(spec);
      var k := 1 + |CriterionPhrases(spec)|;
      assert ps[k] == "count=" + spec.count.ToString();
      JoinContainsEach(ps, " and ", k);
    } else {
      assert Phrases(spec) == Phrases(spec.(count := ANY_COUNT));
    }
  }

  lemma JoinTwo(a: string, b: string, sep: string)
    ensures Text.Join([a, b], sep) == a + sep + b
  {
    assert [a, b][1..] == [b];
  }

  /** With only the id set, the criterion phrases are the id's alone. */
  lemma CriterionPhrasesOfId(spec: SearchSpec, id: string)
    requires spec.id == Some(id) && spec.caption.None? && spec.placeholder.None? && spec.text.None? && spec.value.None?
    requires spec.classes.None? && spec.withoutClasses.None? && spec.themes.None? && spec.withoutThemes.None?
    ensures CriterionPhrases(spec) == ["id='" + id + "'"]
  {
    CriterionPhrasesOfDefault(spec.(id := None));
    assert CriterionPhrases(spec) == ["id='" + id + "'"] + CriterionPhrases(spec.(id := None));
  }

  /** With only the class and the id set, `toString` joins two phrases. */
  lemma PhrasesOfId(clazz: ClassRef, id: string)
    ensures Phrases(DefaultSpec(clazz).(id := Some(id))) == [ClassName(clazz), "id='" + id + "'"]
  {
    var spec := DefaultSpec(clazz).(id := Some(id));
    CriterionPhrasesOfId(spec, id);
    assert !ShowsCount(spec.count);
    assert Phrases(spec) == [ClassName(clazz)] + ["id='" + id + "'"] + [] + PredicatePhrases([]);
  }

  /** Two phrases are separated by " and ". */
  lemma ToStringOfId(clazz: ClassRef, id: string)
    ensures ToString(DefaultSpec(clazz).(id := Some(id))) == ClassName(clazz) + " and id='" + id + "'"
  {
    var name := ClassName(clazz);
    PhrasesOfId(clazz, id);
    JoinTwo(name, "id='" + id + "'", " and ");
    Seqs.Regroup(name + " and ", "id='" + id, "'");
    Seqs.Regroup(name + " and ", "id='", id);
    Seqs.Regroup(name, " and ", "id='");
    assert " and " + "id='" == " and id='";
  }

  /** The filter `find` applies: effectively visible and matching the spec. */
  function Kept(spec: SearchSpec): Located -> bool
  {
    (l: Located) => EffectivelyVisible(l.node, l.ancestors) && Matches(spec, l.node)
  }

  /** The walk entries that are effectively visible and match, in walk order. */
  function VisibleMatches(walk: seq<Located>, spec: SearchSpec): (r: seq<Located>)
    ensures forall l :: l in r <==> l in walk && EffectivelyVisible(l.node, l.ancestors) && Matches(spec, l.node)
    ensures |r| <= |walk|
  {
    Seqs.Filter(walk, Kept(spec))
  }

  /** Filtering keeps walk order: it distributes over concatenation. */
  lemma VisibleMatchesAppend(a: seq<Located>, b: seq<Located>, spec: SearchSpec)
    ensures VisibleMatches(a + b, spec) == VisibleMatches(a, spec) + VisibleMatches(b, spec)
  {
    Seqs.FilterAppend(a, b, Kept(spec));
  }

  /** The first component of the walk that is an internal-server-error view, if any. */
  function FirstServerError(walk: seq<Located>): (r: Option<Located>)
    ensures r.None? <==> forall l :: l in walk ==> INTERNAL_SERVER_ERROR !in l.node.types
    ensures r.Some? ==> r.value in walk && INTERNAL_SERVER_ERROR in r.value.node.types
  {
    if |walk| == 0 then None
    else if INTERNAL_SERVER_ERROR in walk[0].node.types then Some(walk[0])
    else
      assert forall l :: l in walk <==> l == walk[0] || l in walk[1..];
      FirstServerError(walk[1..])
  }

  /** The reason `_find` reports for a count outside the range. */
  datatype CountFailure = NoVisible | TooFew | TooMany

  /** Why a lookup fails. */
  datatype LookupError =
    | InternalServerError(errorText: string)                         // AssertionError from find
    | CountMismatch(failure: CountFailure, found: nat, spec: string)  // AssertionError from _find
    | CountOverridden(count: IntRange)                              // IllegalStateException from _get/_expectNone

  /** Classifies a match count against the requested range: None when it is inside. */
  function CountVerdict(found: nat, count: IntRange): (r: Option<CountFailure>)
    ensures r.None? <==> count.Contains(found)
    ensures r == Some(NoVisible) ==> found == 0
    ensures r == Some(TooFew) ==> 0 < found < count.first
    ensures r == Some(TooMany) ==> found > count.last && found > 0
  {
    if count.Contains(found) then None
    else if found == 0 then Some(NoVisible)
    else if found < count.first then Some(TooFew)
    else Some(TooMany)
  }

  /**
   * `Component.find(predicate)`: walks the root and all its descendants;
   * fails when an internal-server-error view is present, otherwise keeps the
   * effectively visible components matching the spec, in walk order.
   */
  function Find(root: Located, spec: SearchSpec): Result<seq<Located>, LookupError>
  {
    var walk := Walk(root.node, root.ancestors);
    var err := FirstServerError(walk);
    if err.Some? then Err(InternalServerError(err.value.node.text))
    else Ok(VisibleMatches(walk, spec))
  }

  /**
   * `find` fails iff the subtree holds an error view; otherwise it returns
   * exactly the effectively visible matching components of the walk, the root
   * first when it qualifies.
   */
  lemma FindSpec(root: Located, spec: SearchSpec)
    ensures Find(root, spec).Err? <==>
      exists l :: l in Walk(root.node, root.ancestors) && INTERNAL_SERVER_ERROR in l.node.types
    ensures Find(root, spec).Ok? ==> forall l :: l in Find(root, spec).value <==>
      l in Walk(root.node, root.ancestors) && EffectivelyVisible(l.node, l.ancestors) && Matches(spec, l.node)
    ensures Find(root, spec).Ok? && EffectivelyVisible(root.node, root.ancestors) && Matches(spec, root.node)
      ==> Find(root, spec).value[0] == root
  {
    var walk := Walk(root.node, root.ancestors);
    assert walk == [root] + walk[1..];
    VisibleMatchesAppend([root], walk[1..], spec);
  }

  /** The spec a lookup uses: the block applied to the default spec; the class cannot change. */
  function Configure(clazz: ClassRef, preset: IntRange, block: SearchSpec -> SearchSpec): (spec: SearchSpec)
    ensures spec.clazz == clazz
  {
    block(DefaultSpec(clazz).(count := preset)).(clazz := clazz)
  }

  /** `_find(clazz, block)` on a spec that is already configured, `location` being `currentPath ?: "?"`. */
  function FindCounted(root: Located, spec: SearchSpec): (r: Result<seq<Located>, LookupError>)
  {
    match Find(root, spec)
    case Err(e) => Err(e)
    case Ok(found) =>
      var verdict := CountVerdict(|found|, spec.count);
      if verdict.Some? then Err(CountMismatch(verdict.value, |found|, ToString(spec)))
      else Ok(found)
  }

  /**
   * `_find` fails with an assertion error iff the number of visible matches
   * is outside `count` ("No visible" for none, "Too few" below the range,
   * "Too many" above); otherwise it returns all of them. The final class
   * filter keeps every match.
   */
  lemma FindCountedSpec(root: Located, spec: SearchSpec)
    requires Find(root, spec).Ok?
    ensures var found := Find(root, spec).value;
      && (FindCounted(root, spec).Ok? <==> spec.count.Contains(|found|))
      && (FindCounted(root, spec).Ok? ==> FindCounted(root, spec).value == found)
      && (FindCounted(root, spec).Err? ==> FindCounted(root, spec).error.CountMismatch?)
      && ((FindCounted(root, spec) == Err(CountMismatch(NoVisible, 0, ToString(spec))))
          <==> |found| == 0 && !spec.count.Contains(0))
      && ((FindCounted(root, spec).Err? && 0 < |found| < spec.count.first)
          ==> FindCounted(root, spec).error.failure == TooFew)
      && ((FindCounted(root, spec).Err? && 0 < |found| && spec.count.first <= |found|)
          ==> FindCounted(root, spec).error.failure == TooMany)
      && (forall l :: l in found ==> IsInstance(spec.clazz, l.node))
  {
    var found := Find(root, spec).value;
    forall l | l in found ensures IsInstance(spec.clazz, l.node) {
      MatchesIff(spec, l.node);
    }
  }

  /** `_find(clazz, block)`. */
  function FindWith(root: Located, clazz: ClassRef, block: SearchSpec -> SearchSpec): Result<seq<Located>, LookupError>
  {
    FindCounted(root, Configure(clazz, ANY_COUNT, block))
  }

  /**
   * `_get(clazz, block)` and `_expectOne`: presets the count to 1..1, rejects a
   * block that changes it, and returns the single visible match.
   */
  function Get(root: Located, clazz: ClassRef, block: SearchSpec -> SearchSpec): Result<Located, LookupError>
  {
    var spec := Configure(clazz, EXACTLY_ONE, block);
    if spec.count != EXACTLY_ONE then Err(CountOverridden(spec.count))
    else match FindCounted(root, spec)
      case Err(e) => Err(e)
      case Ok(found) => Ok(found[0])
  }

  /**
   * `_get` rejects a block that changes the count; otherwise it succeeds iff
   * there is exactly one effectively visible match, and returns that one.
   */
  lemma GetSpec(root: Located, clazz: ClassRef, block: SearchSpec -> SearchSpec)
    ensures var spec := Configure(clazz, EXACTLY_ONE, block);
      && (spec.count != EXACTLY_ONE ==> Get(root, clazz, block) == Err(CountOverridden(spec.count)))
      && (spec.count == EXACTLY_ONE && Find(root, spec).Ok? ==>
            (Get(root, clazz, block).Ok? <==> |Find(root, spec).value| == 1)
            && (Get(root, clazz, block).Ok? ==> Find(root, spec).value == [Get(root, clazz, block).value]))
      && (Get(root, clazz, block).Ok? ==>
            var l := Get(root, clazz, block).value;
            Matches(spec, l.node) && EffectivelyVisible(l.node, l.ancestors) && IsInstance(clazz, l.node))
  {
    var spec := Configure(clazz, EXACTLY_ONE, block);
    if spec.count == EXACTLY_ONE && Find(root, spec).Ok? {
      var found := Find(root, spec).value;
      if |found| == 1 {
        assert found == [found[0]];
        assert found[0] in found;
        MatchesIff(spec, found[0].node);
      }
    }
  }

  /** `_expectNone(clazz, block)`: presets the count to 0..0 and rejects a block that changes it. */
  function ExpectNone(root: Located, clazz: ClassRef, block: SearchSpec -> SearchSpec): Outcome<LookupError>
  {
    var spec := Configure(clazz, NONE, block);
    if spec.count != NONE then Fail(CountOverridden(spec.count))
    else match FindCounted(root, spec)
      case Err(e) => Fail(e)
      case Ok(_) => Pass
  }

  /** `_expectNone` passes iff the block keeps 0..0 and nothing visible matches. */
  lemma ExpectNoneSpec(root: Located, clazz: ClassRef, block: SearchSpec -> SearchSpec)
    ensures var spec := Configure(clazz, NONE, block);
      ExpectNone(root, clazz, block) == Pass
      <==> spec.count == NONE && Find(root, spec).Ok? && Find(root, spec).value == []
  {
  }

  /** `_expect(clazz, count, block)`: presets the count to n..n; the block may still change it. */
  function Expect(root: Located, clazz: ClassRef, n: Int32, block: SearchSpec -> SearchSpec): Outcome<LookupError>
  {
    match FindWithPreset(root, clazz, IntRange(n, n), block)
    case Err(e) => Fail(e)
    case Ok(_) => Pass
  }

  function FindWithPreset(root: Located, clazz: ClassRef, preset: IntRange, block: SearchSpec -> SearchSpec): Result<seq<Located>, LookupError>
  {
    FindCounted(root, Configure(clazz, preset, block))
  }

  /** When the block leaves the count alone, `_expect(n)` passes iff exactly n visible components match. */
  lemma ExpectSpec(root: Located, clazz: ClassRef, n: Int32, block: SearchSpec -> SearchSpec)
    requires Configure(clazz, IntRange(n, n), block).count == IntRange(n, n)
    ensures var spec := Configure(clazz, IntRange(n, n), block);
      Expect(root, clazz, n, block) == Pass <==> Find(root, spec).Ok? && |Find(root, spec).value| == n
  {
  }
}
