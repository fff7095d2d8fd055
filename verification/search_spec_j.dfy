/**
 * The Java builder over a search specification (SearchSpecJ.java): each
 * `with*` call sets one criterion of the wrapped spec and returns the
 * builder itself, so that calls chain.
 */
module SearchSpecBuilder {
  import opened Wrappers
  import opened Ranges
  import Text
  import Locator
  import Components

  class SearchSpecJ {
    var spec: Locator.SearchSpec

    constructor(spec: Locator.SearchSpec)
      ensures this.spec == spec
    {
      this.spec := spec;
    }

    method WithId(id: Option<string>) returns (self: SearchSpecJ)
      modifies this
      ensures self == this && spec == old(spec).(id := id)
    {
      spec := spec.(id := id);
      return this;
    }

    method WithCaption(caption: Option<string>) returns (self: SearchSpecJ)
      modifies this
      ensures self == this && spec == old(spec).(caption := caption)
    {
      spec := spec.(caption := caption);
      return this;
    }

    method WithValue(value: Option<string>) returns (self: SearchSpecJ)
      modifies this
      ensures self == this && spec == old(spec).(value := value)
    {
      spec := spec.(value := value);
      return this;
    }

    method WithPlaceholder(placeholder: Option<string>) returns (self: SearchSpecJ)
      modifies this
      ensures self == this && spec == old(spec).(placeholder := placeholder)
    {
      spec := spec.(placeholder := placeholder);
      return this;
    }

    method WithText(text: Option<string>) returns (self: SearchSpecJ)
      modifies this
      ensures self == this && spec == old(spec).(text := text)
    {
      spec := spec.(text := text);
      return this;
    }

    /** `withCount(IntRange)`. */
    method WithCount(count: IntRange) returns (self: SearchSpecJ)
      modifies this
      ensures self == this && spec == old(spec).(count := count)
    {
      spec := spec.(count := count);
      return this;
    }

    /**
     * `withCount(min, max)`: an IllegalArgumentException when `min > max`,
     * leaving the spec as it was; otherwise the count becomes `min..max`.
     */
    method WithCountBetween(min: Int32, max: Int32) returns (r: Result<SearchSpecJ, string>)
      modifies this
      ensures r.Err? <==> min > max
      ensures r.Err? ==> spec == old(spec)
      ensures r.Err? ==> r.error == "Parameter min: invalid value " + Text.IntToString(min)
                                    + ": must be less than or equal to max: " + Text.IntToString(max)
      ensures r.Ok? ==> r.value == this && spec == old(spec).(count := IntRange(min, max))
    {
      if min > max {
        return Err("Parameter min: invalid value " + Text.IntToString(min)
                   + ": must be less than or equal to max: " + Text.IntToString(max));
      }
      var self := WithCount(IntRange(min, max));
      return Ok(self);
    }

    /** `withCount(n)`: exactly `n` components; never fails. */
    method WithExactCount(n: Int32) returns (self: SearchSpecJ)
      modifies this
      ensures self == this && spec == old(spec).(count := IntRange(n, n))
    {
      var r := WithCountBetween(n, n);
      self := r.value;
    }

    method WithClasses(classes: Option<string>) returns (self: SearchSpecJ)
      modifies this
      ensures self == this && spec == old(spec).(classes := classes)
    {
      spec := spec.(classes := classes);
      return this;
    }

    method WithoutClasses(classes: Option<string>) returns (self: SearchSpecJ)
      modifies this
      ensures self == this && spec == old(spec).(withoutClasses := classes)
    {
      spec := spec.(withoutClasses := classes);
      return this;
    }

    method WithThemes(themes: Option<string>) returns (self: SearchSpecJ)
      modifies this
      ensures self == this && spec == old(spec).(themes := themes)
    {
      spec := spec.(themes := themes);
      return this;
    }

    method WithoutThemes(themes: Option<string>) returns (self: SearchSpecJ)
      modifies this
      ensures self == this && spec == old(spec).(withoutThemes := themes)
    {
      spec := spec.(withoutThemes := themes);
      return this;
    }

    /** `withPredicate`: appends, keeping the predicates added before. */
    method WithPredicate(p: Locator.Pred) returns (self: SearchSpecJ)
      modifies this
      ensures self == this && spec == old(spec).(predicates := old(spec).predicates + [p])
    {
      spec := spec.(predicates := spec.predicates + [p]);
      return this;
    }

    /** `toString()`: the wrapped spec's. */
    function ToString(): string
      reads this
    {
      Locator.ToString(spec)
    }

    /**
     * `toPredicate()`: tests the spec's predicate, and describes itself by
     * the spec's `toString()` as it was when the predicate was made.
     */
    method ToPredicate() returns (p: Locator.Pred)
      ensures p.description == ToString()
      ensures forall c :: p.test(c) <==> Locator.MatchesEveryField(spec, c)
    {
      var s := spec;
      p := Locator.Pred(c => Locator.Matches(s, c), Locator.ToString(s));
      forall c ensures p.test(c) <==> Locator.MatchesEveryField(s, c) {
        Locator.MatchesIff(s, c);
      }
    }
  }

  /**
   * A predicate keeps the description it was made with: changing the
   * builder afterwards does not change it.
   */
  method PredicateDescriptionIsCaptured(b: SearchSpecJ, id: string) returns (p: Locator.Pred)
    modifies b
    ensures p.description == Locator.ToString(old(b.spec))
    ensures b.spec == old(b.spec).(id := Some(id))
  {
    p := b.ToPredicate();
    var _ := b.WithId(Some(id));
  }
}
