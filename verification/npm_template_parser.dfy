/**
 * `NpmTemplateParserCopy.getTemplateContent` (NpmTemplateParserCopy.java):
 * choosing which `@JsModule` file defines a template's element, and the
 * cache of sources read from the webpack statistics.
 */
module NpmTemplateParser {
  import opened Wrappers
  import Text

  /** `Dependency.Type`. */
  datatype DependencyType = JsModule | JavaScript | Stylesheet

  /** A `Dependency`: its type and URL. */
  datatype Dependency = Dependency(kind: DependencyType, url: string)

  /** Parsed webpack statistics: their hash and the module sources they hold by URL. */
  datatype Stats = Stats(hash: string, sources: map<string, string>)

  /**
   * What the parser asks of the service and the class path: the deployment
   * mode, the statistics file (already parsed, absent when missing), its
   * current hash, and the template files on the class path by URL.
   */
  datatype Service = Service(
    productionMode: bool,
    enableDevServer: bool,
    statsContent: Option<Stats>,
    statsHash: string,
    resources: map<string, string>)

  /** `dependencyHasTagName`: the URL is `tag.js` ignoring case, or its lower-cased form ends with `/tag.js`. */
  predicate DependencyHasTagName(d: Dependency, tag: string)
  {
    Text.EqualsIgnoreCase(d.url, tag + ".js") || Text.EndsWith(Text.ToLower(d.url), "/" + tag + ".js")
  }

  /** A lower-case tag names a file at any depth: `tag.js` in any case, or `…/tag.js`. */
  lemma DependencyHasTagNameExamples(tag: string, dir: string)
    ensures DependencyHasTagName(Dependency(JsModule, tag + ".js"), tag)
    ensures Text.ToLower(dir + "/" + tag + ".js") == dir + "/" + tag + ".js"
      ==> DependencyHasTagName(Dependency(JsModule, dir + "/" + tag + ".js"), tag)
  {
    var u := dir + "/" + tag + ".js";
    var s := "/" + tag + ".js";
    assert u == dir + s;
    assert u[|u| - |s|..] == s;
  }

  /** Whether a URL names the tag does not depend on the URL's case. */
  lemma HasTagNameIgnoresUrlCase(kind: DependencyType, url: string, tag: string)
    ensures DependencyHasTagName(Dependency(kind, url), tag) <==> DependencyHasTagName(Dependency(kind, Text.ToLower(url)), tag)
  {
    var l := Text.ToLower(url);
    assert Text.ToLower(l) == l;
  }

  /** `usesBundleFile`: production mode without the dev server. */
  predicate UsesBundleFile(service: Service)
  {
    service.productionMode && !service.enableDevServer
  }

  /** The source the statistics hold for a URL (`BundleParser.getSourceFromStatistics`), or null. */
  function SourceFromStats(url: string, stats: Stats): Option<string>
  {
    if url in stats.sources then Some(stats.sources[url]) else None
  }

  /** The statistics `getSourcesFromStats` ends up holding: reloaded when needed and available. */
  function EffectiveStats(jsonStats: Option<Stats>, service: Service): Option<Stats>
  {
    if ReadNeeded(jsonStats, service) && service.statsContent.Some? then service.statsContent else jsonStats
  }

  /**
   * `isStatsFileReadNeeded`: always without statistics, never again with a
   * bundle, otherwise when the hash has changed.
   */
  predicate ReadNeeded(jsonStats: Option<Stats>, service: Service)
  {
    if jsonStats.None? then true
    else if UsesBundleFile(service) then false
    else jsonStats.value.hash != service.statsHash
  }

  /** Reading the statistics twice in a row holds the same ones as reading them once. */
  lemma EffectiveStatsIdempotent(jsonStats: Option<Stats>, service: Service)
    ensures EffectiveStats(EffectiveStats(jsonStats, service), service) == EffectiveStats(jsonStats, service)
  {
  }

  /**
   * A read settles the statistics: once statistics carrying the current hash
   * are held, no further read is needed; with a bundle file, holding any
   * statistics is enough.
   */
  lemma ReadSettles(jsonStats: Option<Stats>, service: Service)
    ensures service.statsContent.Some? && service.statsContent.value.hash == service.statsHash ==>
              !ReadNeeded(EffectiveStats(jsonStats, service), service)
    ensures jsonStats.Some? && UsesBundleFile(service) ==> !ReadNeeded(jsonStats, service)
    ensures jsonStats.None? ==> ReadNeeded(jsonStats, service)
  {
  }

  /**
   * The parser's state: the cache of sources by URL (a cached null is
   * recorded as None) and the statistics last read.
   */
  class TemplateParser {
    var cache: map<string, Option<string>>
    var jsonStats: Option<Stats>

    /** Every cached entry is what the current statistics say about its URL. */
    predicate Valid()
      reads this
    {
      forall url :: url in cache ==> jsonStats.Some? && cache[url] == SourceFromStats(url, jsonStats.value)
    }

    constructor()
      ensures Valid() && cache == map[] && jsonStats.None?
    {
      cache := map[];
      jsonStats := None;
    }

    /** `isStatsFileReadNeeded(service)`. */
    predicate IsStatsFileReadNeeded(service: Service)
      reads this
    {
      ReadNeeded(jsonStats, service)
    }

    /** `resetCache(fileContents)`: empties the cache and keeps the new statistics. */
    method ResetCache(stats: Stats)
      modifies this
      ensures cache == map[] && jsonStats == Some(stats)
      ensures Valid()
    {
      cache := map[];
      jsonStats := Some(stats);
    }

    /**
     * `getSourcesFromStats(service, url)`: re-reads the statistics when
     * needed, caches the URL's source the first time it is asked for while
     * statistics exist, and answers from the cache.
     */
    method GetSourcesFromStats(service: Service, url: string) returns (source: Option<string>)
      requires Valid()
      modifies this
      ensures Valid()
      ensures jsonStats == EffectiveStats(old(jsonStats), service)
      ensures source == (if jsonStats.Some? then SourceFromStats(url, jsonStats.value) else None)
      ensures if old(IsStatsFileReadNeeded(service)) && service.statsContent.Some? then cache.Keys <= {url}
              else old(cache).Keys <= cache.Keys
      ensures jsonStats.Some? ==> url in cache
      ensures forall u :: u in cache ==> u in old(cache) || u == url
    {
      if IsStatsFileReadNeeded(service) {
        if service.statsContent.Some? {
          ResetCache(service.statsContent.value);
        }
      }
      if url !in cache && jsonStats.Some? {
        cache := cache[url := SourceFromStats(url, jsonStats.value)];
      }
      source := if url in cache then cache[url] else None;
    }
  }

  /** `getSourcesFromTemplate` or, failing that, the statistics: where a URL's source comes from. */
  function SourceOf(url: string, service: Service, stats: Option<Stats>): Option<string>
  {
    if url in service.resources then Some(service.resources[url])
    else if stats.Some? then SourceFromStats(url, stats.value)
    else None
  }

  /** A dependency with its source. */
  datatype Chosen = Chosen(dependency: Dependency, source: string)

  /**
   * The selection loop of `getTemplateContent`: non-JsModule dependencies
   * and those without a source are skipped; the first with a source is kept
   * unless one with the tag's name comes, which wins and ends the loop.
   */
  function Choose(deps: seq<Dependency>, tag: string, service: Service, stats: Option<Stats>, chosen: Option<Chosen>): Option<Chosen>
  {
    if |deps| == 0 then chosen
    else
      var d := deps[0];
      if d.kind != JsModule then Choose(deps[1..], tag, service, stats, chosen)
      else match SourceOf(d.url, service, stats)
        case None => Choose(deps[1..], tag, service, stats, chosen)
        case Some(s) =>
          if DependencyHasTagName(d, tag) then Some(Chosen(d, s))
          else Choose(deps[1..], tag, service, stats, if chosen.None? then Some(Chosen(d, s)) else chosen)
  }

  /** A dependency the loop can pick: a JsModule whose source was found. */
  predicate Candidate(d: Dependency, service: Service, stats: Option<Stats>)
  {
    d.kind == JsModule && SourceOf(d.url, service, stats).Some?
  }

  /**
   * Nothing is chosen iff no dependency is a candidate; when one carrying
   * the tag's name is, the first such wins; otherwise the first candidate
   * does.
   */
  lemma {:induction false} ChooseSpec(deps: seq<Dependency>, tag: string, service: Service, stats: Option<Stats>)
    ensures Choose(deps, tag, service, stats, None).None?
      <==> forall i :: 0 <= i < |deps| ==> !Candidate(deps[i], service, stats)
    ensures forall k ::
              (0 <= k < |deps| && Candidate(deps[k], service, stats) && DependencyHasTagName(deps[k], tag)
               && (forall j :: 0 <= j < k ==> !(Candidate(deps[j], service, stats) && DependencyHasTagName(deps[j], tag))))
              ==> Choose(deps, tag, service, stats, None) == Some(Chosen(deps[k], SourceOf(deps[k].url, service, stats).value))
    ensures (forall i :: 0 <= i < |deps| ==> !(Candidate(deps[i], service, stats) && DependencyHasTagName(deps[i], tag)))
      ==> forall k :: (0 <= k < |deps| && Candidate(deps[k], service, stats)
            && (forall j :: 0 <= j < k ==> !Candidate(deps[j], service, stats)))
            ==> Choose(deps, tag, service, stats, None) == Some(Chosen(deps[k], SourceOf(deps[k].url, service, stats).value))
  {
    ChooseKeeps(deps, tag, service, stats, None);
    forall k | 0 <= k < |deps| && Candidate(deps[k], service, stats) && DependencyHasTagName(deps[k], tag)
      && (forall j :: 0 <= j < k ==> !(Candidate(deps[j], service, stats) && DependencyHasTagName(deps[j], tag)))
      ensures Choose(deps, tag, service, stats, None) == Some(Chosen(deps[k], SourceOf(deps[k].url, service, stats).value))
    {
      ChooseTagged(deps, tag, service, stats, None, k);
    }
    if forall i :: 0 <= i < |deps| ==> !(Candidate(deps[i], service, stats) && DependencyHasTagName(deps[i], tag)) {
      forall k | 0 <= k < |deps| && Candidate(deps[k], service, stats)
        && (forall j :: 0 <= j < k ==> !Candidate(deps[j], service, stats))
        ensures Choose(deps, tag, service, stats, None) == Some(Chosen(deps[k], SourceOf(deps[k].url, service, stats).value))
      {
        ChooseFirst(deps, tag, service, stats, k);
      }
    }
  }

  /** Without a candidate the loop keeps what it had; with one it always ends with a choice. */
  lemma {:induction false} ChooseKeeps(deps: seq<Dependency>, tag: string, service: Service, stats: Option<Stats>, chosen: Option<Chosen>)
    ensures (forall i :: 0 <= i < |deps| ==> !Candidate(deps[i], service, stats))
      ==> Choose(deps, tag, service, stats, chosen) == chosen
    ensures (exists i :: 0 <= i < |deps| && Candidate(deps[i], service, stats))
      ==> Choose(deps, tag, service, stats, chosen).Some?
    ensures chosen.Some? ==> Choose(deps, tag, service, stats, chosen).Some?
  {
    if |deps| > 0 {
      ChooseKeeps(deps[1..], tag, service, stats, chosen);
      var d := deps[0];
      var src := SourceOf(d.url, service, stats);
      if src.Some? && d.kind == JsModule {
        ChooseKeeps(deps[1..], tag, service, stats, if chosen.None? then Some(Chosen(d, src.value)) else chosen);
      }
      assert forall i :: 1 <= i < |deps| ==> deps[i] == deps[1..][i - 1];
    }
  }

  lemma {:induction false} ChooseTagged(deps: seq<Dependency>, tag: string, service: Service, stats: Option<Stats>, chosen: Option<Chosen>, k: nat)
    requires k < |deps| && Candidate(deps[k], service, stats) && DependencyHasTagName(deps[k], tag)
    requires forall j :: 0 <= j < k ==> !(Candidate(deps[j], service, stats) && DependencyHasTagName(deps[j], tag))
    ensures Choose(deps, tag, service, stats, chosen) == Some(Chosen(deps[k], SourceOf(deps[k].url, service, stats).value))
  {
    if k > 0 {
      var d := deps[0];
      var src := SourceOf(d.url, service, stats);
      var next := if d.kind == JsModule && src.Some? && chosen.None? then Some(Chosen(d, src.value)) else chosen;
      assert forall j :: 0 <= j < k - 1 ==> deps[1..][j] == deps[j + 1];
      ChooseTagged(deps[1..], tag, service, stats, next, k - 1);
    }
  }

  lemma {:induction false} ChooseFirst(deps: seq<Dependency>, tag: string, service: Service, stats: Option<Stats>, k: nat)
    requires k < |deps| && Candidate(deps[k], service, stats)
    requires forall j :: 0 <= j < k ==> !Candidate(deps[j], service, stats)
    requires forall i :: 0 <= i < |deps| ==> !(Candidate(deps[i], service, stats) && DependencyHasTagName(deps[i], tag))
    ensures Choose(deps, tag, service, stats, None) == Some(Chosen(deps[k], SourceOf(deps[k].url, service, stats).value))
  {
    if k > 0 {
      assert forall j :: 0 <= j < k - 1 ==> deps[1..][j] == deps[j + 1];
      assert forall i :: 0 <= i < |deps| - 1 ==> deps[1..][i] == deps[i + 1];
      ChooseFirst(deps[1..], tag, service, stats, k - 1);
    } else {
      var c := Chosen(deps[0], SourceOf(deps[0].url, service, stats).value);
      ChooseNoTag(deps[1..], tag, service, stats, c);
    }
  }

  /** Without a tagged candidate, a choice once made is kept. */
  lemma {:induction false} ChooseNoTag(deps: seq<Dependency>, tag: string, service: Service, stats: Option<Stats>, c: Chosen)
    requires forall i :: 0 <= i < |deps| ==> !(Candidate(deps[i], service, stats) && DependencyHasTagName(deps[i], tag))
    ensures Choose(deps, tag, service, stats, Some(c)) == Some(c)
  {
    if |deps| > 0 {
      assert forall i :: 0 <= i < |deps| - 1 ==> deps[1..][i] == deps[i + 1];
      ChooseNoTag(deps[1..], tag, service, stats, c);
    }
  }

  /** One step of the selection loop. */
  lemma ChooseStep(deps: seq<Dependency>, tag: string, service: Service, stats: Option<Stats>, chosen: Option<Chosen>)
    requires |deps| > 0
    ensures var d := deps[0];
      var s := SourceOf(d.url, service, stats);
      Choose(deps, tag, service, stats, chosen)
        == if d.kind != JsModule || s.None? then Choose(deps[1..], tag, service, stats, chosen)
           else if DependencyHasTagName(d, tag) then Some(Chosen(d, s.value))
           else Choose(deps[1..], tag, service, stats, if chosen.None? then Some(Chosen(d, s.value)) else chosen)
  {
  }

  /**
   * The source of one dependency: the class-path file when there is one,
   * else what `getSourcesFromStats` finds.
   */
  method FindSource(parser: TemplateParser, service: Service, url: string, ghost stats: Option<Stats>)
    returns (source: Option<string>)
    requires parser.Valid()
    requires stats == EffectiveStats(parser.jsonStats, service)
    modifies parser
    ensures parser.Valid()
    ensures parser.jsonStats == old(parser.jsonStats) || parser.jsonStats == stats
    ensures stats == EffectiveStats(parser.jsonStats, service)
    ensures source == SourceOf(url, service, stats)
  {
    EffectiveStatsIdempotent(parser.jsonStats, service);
    if url in service.resources {
      source := Some(service.resources[url]);
    } else {
      source := parser.GetSourcesFromStats(service, url);
    }
  }

  /** One pass of the selection loop's body over dependency `d`. */
  method Visit(parser: TemplateParser, d: Dependency, tag: string, service: Service, ghost stats: Option<Stats>,
               chosen: Option<Chosen>)
    returns (next: Option<Chosen>, done: bool)
    requires parser.Valid()
    requires stats == EffectiveStats(parser.jsonStats, service)
    modifies parser
    ensures parser.Valid()
    ensures parser.jsonStats == old(parser.jsonStats) || parser.jsonStats == stats
    ensures stats == EffectiveStats(parser.jsonStats, service)
    ensures var s := SourceOf(d.url, service, stats);
      if d.kind != JsModule || s.None? then next == chosen && !done
      else if DependencyHasTagName(d, tag) then next == Some(Chosen(d, s.value)) && done
      else next == (if chosen.None? then Some(Chosen(d, s.value)) else chosen) && !done
  {
    next, done := chosen, false;
    if d.kind == JsModule {
      var source := FindSource(parser, service, d.url, stats);
      if source.Some? {
        if next.None? {
          next := Some(Chosen(d, source.value));
        }
        if DependencyHasTagName(d, tag) {
          next := Some(Chosen(d, source.value));
          done := true;
        }
      }
    }
  }

  /** The template data `getTemplateContent` returns: the chosen file's URL and source. */
  datatype TemplateData = TemplateData(url: string, source: string)

  /** The IllegalStateException's message when no file defines the tag, naming the annotation. */
  function NotFoundMessage(tag: string): string
  {
    NOT_FOUND_HEAD + tag + NOT_FOUND_MIDDLE + "JsModule" + NOT_FOUND_TAIL
  }

  const NOT_FOUND_HEAD: string := "Couldn't find the definition of the element with tag '"
  const NOT_FOUND_MIDDLE: string := "' in any template file declared using '@"
  const NOT_FOUND_TAIL: string :=
    "' annotations. Check the availability of the template files in your WAR file or provide alternative "
    + "implementation of the method getTemplateContent() which should return an element representing the "
    + "content of the template file"

  /**
   * `getTemplateContent(clazz, tag, service)` over the class's (already
   * filtered) `@JsModule` dependencies: a file on the class path is used
   * as is, otherwise the statistics are consulted. They are re-read (and
   * the cache cleared) whenever `isStatsFileReadNeeded` says so, which
   * outside bundle mode with a changed hash is on every lookup; as the
   * statistics do not change during the call, every lookup sees the same
   * ones.
   */
  method GetTemplateContent(parser: TemplateParser, deps: seq<Dependency>, tag: string, service: Service)
    returns (r: Result<TemplateData, string>)
    requires parser.Valid()
    modifies parser
    ensures parser.Valid()
    ensures parser.jsonStats == old(parser.jsonStats) || parser.jsonStats == EffectiveStats(old(parser.jsonStats), service)
    ensures var chosen := Choose(deps, tag, service, EffectiveStats(old(parser.jsonStats), service), None);
      && (chosen.None? ==> r == Err(NotFoundMessage(tag)))
      && (chosen.Some? ==> r == Ok(TemplateData(chosen.value.dependency.url, chosen.value.source)))
  {
    ghost var stats0 := parser.jsonStats;
    ghost var stats := EffectiveStats(stats0, service);
    EffectiveStatsIdempotent(stats0, service);
    ghost var goal := Choose(deps, tag, service, stats, None);
    var chosen: Option<Chosen> := None;
    var i := 0;
    var done := false;
    while i < |deps| && !done
      invariant 0 <= i <= |deps|
      invariant parser.Valid()
      invariant parser.jsonStats == stats0 || parser.jsonStats == stats
      invariant stats == EffectiveStats(parser.jsonStats, service)
      invariant !done ==> goal == Choose(deps[i..], tag, service, stats, chosen)
      invariant done ==> goal == chosen
    {
      assert deps[i..][0] == deps[i] && deps[i..][1..] == deps[i + 1..];
      ChooseStep(deps[i..], tag, service, stats, chosen);
      chosen, done := Visit(parser, deps[i], tag, service, stats, chosen);
      i := i + 1;
    }
    if !done {
      assert deps[i..] == [];
    }
    match chosen
    case Some(c) =>
      r := Ok(TemplateData(c.dependency.url, c.source));
    case None =>
      r := Err(NotFoundMessage(tag));
  }
}
