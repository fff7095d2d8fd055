/**
 * What a grid cell shows (Renderers.kt): the template renderer's
 * placeholder substitution, and the presentation value of each renderer
 * kind. A value provider is the string its value for the row prints as;
 * the HTML text extraction of a rendered template is the parameter
 * `htmlText`.
 */
module Renderers {
  import opened Wrappers
  import Text

  /** A template renderer's value provider: its key and the printed value it gives a row. */
  datatype Provider<-T> = Provider(key: string, show: T -> string)

  /** The renderer kinds `_getPresentationValue` tells apart. */
  datatype Renderer<-T> =
    | TemplateRenderer(template: string, providers: seq<Provider<T>>)
    | BasicRenderer(formatted: T -> string)      // getFormattedValue(valueProvider.apply(row))
    | TextRenderer(text: T -> string)            // the created component's element text
    | ComponentRenderer(pretty: T -> string)     // toPrettyString() of the created component
    | OtherRenderer

  /** `"[[item.$k]]"`. */
  function Placeholder(key: string): (p: string)
    ensures |p| == |key| + 9
  {
    "[[item." + key + "]]"
  }

  /** One step of the `forEach`: replace the provider's placeholder when the template contains it. */
  function RenderStep<T>(template: string, p: Provider<T>, item: T): string
  {
    if Text.Contains(template, Placeholder(p.key)) then Text.ReplaceAll(template, Placeholder(p.key), p.show(item))
    else template
  }

  /** The template after the providers from `i` on have been applied in order. */
  function RenderFrom<T>(template: string, providers: seq<Provider<T>>, item: T, i: nat): string
    requires i <= |providers|
    decreases |providers| - i
  {
    if i == |providers| then template
    else RenderFrom(RenderStep(template, providers[i], item), providers, item, i + 1)
  }

  /** `renderTemplate(item)`: the loop over the value providers. */
  method RenderTemplate<T>(template: string, providers: seq<Provider<T>>, item: T) returns (r: string)
    ensures r == RenderFrom(template, providers, item, 0)
  {
    r := template;
    for i := 0 to |providers|
      invariant RenderFrom(r, providers, item, i) == RenderFrom(template, providers, item, 0)
    {
      var pattern := Placeholder(providers[i].key);
      if Text.Contains(r, pattern) {
        r := Text.ReplaceAll(r, pattern, providers[i].show(item));
      }
    }
  }

  /** A template in which no provider's placeholder occurs is returned as it is. */
  lemma {:induction false} RenderWithoutPlaceholders<T>(template: string, providers: seq<Provider<T>>, item: T, i: nat)
    requires i <= |providers|
    requires forall j :: i <= j < |providers| ==> !Text.Contains(template, Placeholder(providers[j].key))
    ensures RenderFrom(template, providers, item, i) == template
    decreases |providers| - i
  {
    if i < |providers| {
      RenderWithoutPlaceholders(template, providers, item, i + 1);
    }
  }

  /**
   * With a single provider every occurrence of its placeholder is replaced:
   * the length changes by |value| - |placeholder| once per occurrence.
   */
  lemma RenderOneProvider<T>(template: string, p: Provider<T>, item: T)
    ensures var r := RenderFrom(template, [p], item, 0);
      |r| == |template| + Text.Occurrences(template, Placeholder(p.key)) * (|p.show(item)| - |Placeholder(p.key)|)
  {
    var pat := Placeholder(p.key);
    Text.ReplaceLength(template, pat, p.show(item));
    if !Text.Contains(template, pat) {
      Text.NoOccurrences(template, pat);
    }
  }

  /**
   * `_getPresentationValue(row)`: the HTML text of the rendered template,
   * the formatted value, the rendered text or the created component's
   * description; null for any other renderer.
   */
  function PresentationValue<T>(renderer: Renderer<T>, row: T, htmlText: string -> string): (r: Option<string>)
    ensures r.None? <==> renderer.OtherRenderer?
    ensures renderer.TemplateRenderer? ==>
              r == Some(htmlText(RenderFrom(renderer.template, renderer.providers, row, 0)))
  {
    match renderer
    case TemplateRenderer(template, providers) => Some(htmlText(RenderFrom(template, providers, row, 0)))
    case BasicRenderer(formatted) => Some(formatted(row))
    case TextRenderer(text) => Some(text(row))
    case ComponentRenderer(pretty) => Some(pretty(row))
    case OtherRenderer => None
  }
}
