/**
 * The mock servlet response (MockResponse.kt): a header map whose values are
 * lists, a cookie list, and plain status, buffer-size, encoding, locale and
 * content-type fields. Sending an error always fails, so that an application
 * that reports an HTTP error fails the test.
 */
module MockResponses {
  import opened Wrappers
  import Text
  import Env = MockHttpEnvironment
  import Seqs

  const DEFAULT_BUFFER_SIZE: int := 4096
  const DEFAULT_CHARACTER_ENCODING: string := "ISO-8859-1"
  const DEFAULT_STATUS: int := 200
  const DEFAULT_LOCALE: string := "en_US"
  const FAILURE_PREFIX: string := "The app requests a failure: "
  const NO_SUCH_COOKIE: string := "no such cookie with name "
  const AVAILABLE_COOKIES: string := ". Available cookies: "

  /** Kotlin's string template of a nullable value: the value, or `null`. */
  function Templated(s: Option<string>): string
  {
    s.GetOr("null")
  }

  /** `sendError(sc)`: always an IOException naming the status code. */
  function SendError(sc: int): (r: Outcome<string>)
    ensures r.Fail? && r.error == FAILURE_PREFIX + Text.IntToString(sc)
  {
    Fail(FAILURE_PREFIX + Text.IntToString(sc))
  }

  /** `sendError(sc, msg)`: always an IOException naming the status code and then the message. */
  function SendErrorWithMessage(sc: int, msg: Option<string>): (r: Outcome<string>)
    ensures r.Fail?
    ensures Text.StartsWith(r.error, SendError(sc).error + " ")
    ensures r.error == SendError(sc).error + " " + Templated(msg)
  {
    Fail(SendError(sc).error + " " + Templated(msg))
  }

  /** `name=value` for each cookie, joined with ", ". */
  function CookieList(cookies: seq<Env.Cookie>): string
  {
    Text.Join(seq(|cookies|, i requires 0 <= i < |cookies| => cookies[i].name + "=" + cookies[i].value), ", ")
  }

  /** `findCookie(name)`: the first cookie added with that name. */
  function FindCookie(cookies: seq<Env.Cookie>, name: string): (r: Option<Env.Cookie>)
    ensures r.None? <==> forall i :: 0 <= i < |cookies| ==> cookies[i].name != name
    ensures r.Some? ==> r.value.name == name && r.value in cookies
    ensures r.Some? ==> exists i :: 0 <= i < |cookies| && cookies[i] == r.value
                                    && forall j :: 0 <= j < i ==> cookies[j].name != name
  {
    Seqs.FirstOrNull(cookies, (c: Env.Cookie) => c.name == name)
  }

  /** `getCookie(name)`: the cookie, or an IllegalStateException listing the cookies there are. */
  function GetCookie(cookies: seq<Env.Cookie>, name: string): (r: Result<Env.Cookie, string>)
    ensures r.Ok? <==> exists i :: 0 <= i < |cookies| && cookies[i].name == name
    ensures r.Ok? ==> Some(r.value) == FindCookie(cookies, name)
    ensures r.Err? ==> r.error == NO_SUCH_COOKIE + name + AVAILABLE_COOKIES + CookieList(cookies)
  {
    match FindCookie(cookies, name)
    case Some(c) => Ok(c)
    case None => Err(NO_SUCH_COOKIE + name + AVAILABLE_COOKIES + CookieList(cookies))
  }

  /** A cookie added later never hides one added earlier under the same name. */
  lemma FindCookieKeepsFirst(cookies: seq<Env.Cookie>, added: Env.Cookie, name: string)
    requires FindCookie(cookies, name).Some?
    ensures FindCookie(cookies + [added], name) == FindCookie(cookies, name)
  {
    var c := FindCookie(cookies, name).value;
    var i :| 0 <= i < |cookies| && cookies[i] == c && forall j :: 0 <= j < i ==> cookies[j].name != name;
    assert (cookies + [added])[i] == c;
    var d := FindCookie(cookies + [added], name).value;
    var k :| 0 <= k < |cookies + [added]| && (cookies + [added])[k] == d
             && forall j :: 0 <= j < k ==> (cookies + [added])[j].name != name;
  }

  /** The headers' values, in the order they were added; an absent header has none. */
  function ValuesOf(headers: map<string, seq<string>>, name: string): (r: seq<string>)
    ensures r == Env.Lookup(headers, name).GetOr([])
  {
    if name in headers then headers[name] else []
  }

  /** Every header the response itself stored has at least one value. */
  ghost predicate HeadersWellFormed(headers: map<string, seq<string>>)
  {
    forall name :: name in headers ==> |headers[name]| > 0
  }

  /** `MockResponse`: the fields the servlet API reads and writes. */
  class MockResponse {
    var headers: map<string, seq<string>>
    var cookies: seq<Env.Cookie>
    var bufferSize: int
    var locale: string
    var characterEncoding: string
    var status: int
    var contentType: Option<string>

    constructor()
      ensures headers == map[] && cookies == []
      ensures bufferSize == DEFAULT_BUFFER_SIZE && locale == DEFAULT_LOCALE
      ensures characterEncoding == DEFAULT_CHARACTER_ENCODING && status == DEFAULT_STATUS
      ensures contentType == None
    {
      headers := map[];
      cookies := [];
      bufferSize := DEFAULT_BUFFER_SIZE;
      locale := DEFAULT_LOCALE;
      characterEncoding := DEFAULT_CHARACTER_ENCODING;
      status := DEFAULT_STATUS;
      contentType := None;
    }

    /** `getHeader(name)`: the first value, null when there is none. */
    function GetHeader(name: string): (r: Result<Option<string>, Env.NoFirstValue>)
      reads this
      ensures r.Ok? ==> r.value == if |ValuesOf(headers, name)| > 0 then Some(ValuesOf(headers, name)[0]) else None
      ensures HeadersWellFormed(headers) ==> r.Ok?
      ensures r.Ok? && r.value.None? <==> !ContainsHeader(name)
    {
      Env.FirstValue(headers, name)
    }

    /** `getHeaders(name)`: every value, an empty list when the header is absent. */
    function GetHeaders(name: string): (r: seq<string>)
      reads this
      ensures r == [] <== !ContainsHeader(name)
      ensures ContainsHeader(name) ==> r == headers[name]
    {
      ValuesOf(headers, name)
    }

    /** `containsHeader(name)`. */
    predicate ContainsHeader(name: string)
      reads this
    {
      name in headers
    }

    /** `getHeaderNames()`. */
    function GetHeaderNames(): (r: set<string>)
      reads this
      ensures forall n :: n in r <==> ContainsHeader(n)
    {
      headers.Keys
    }

    /** `addHeader(name, value)`: appends `value` to the header's values; other headers stay. */
    method AddHeader(name: string, value: string)
      modifies this
      ensures GetHeaders(name) == old(GetHeaders(name)) + [value]
      ensures headers == old(headers)[name := old(ValuesOf(headers, name)) + [value]]
      ensures HeadersWellFormed(old(headers)) ==> HeadersWellFormed(headers)
      ensures !old(ContainsHeader(name)) ==> GetHeader(name) == Ok(Some(value))
      ensures HeadersWellFormed(old(headers)) && old(ContainsHeader(name)) ==> GetHeader(name) == old(GetHeader(name))
      ensures cookies == old(cookies) && bufferSize == old(bufferSize) && locale == old(locale)
      ensures characterEncoding == old(characterEncoding) && status == old(status) && contentType == old(contentType)
    {
      headers := headers[name := ValuesOf(headers, name) + [value]];
    }

    /** `setHeader(name, value)`: `value` becomes the header's only value; other headers stay. */
    method SetHeader(name: string, value: string)
      modifies this
      ensures GetHeaders(name) == [value] && GetHeader(name) == Ok(Some(value))
      ensures headers == old(headers)[name := [value]]
      ensures HeadersWellFormed(old(headers)) ==> HeadersWellFormed(headers)
      ensures cookies == old(cookies) && bufferSize == old(bufferSize) && locale == old(locale)
      ensures characterEncoding == old(characterEncoding) && status == old(status) && contentType == old(contentType)
    {
      headers := headers[name := [value]];
    }

    /** `addIntHeader` and `addDateHeader`: the number's decimal rendering, appended. */
    method AddIntHeader(name: string, value: int)
      modifies this
      ensures GetHeaders(name) == old(GetHeaders(name)) + [Text.IntToString(value)]
      ensures headers == old(headers)[name := old(ValuesOf(headers, name)) + [Text.IntToString(value)]]
      ensures cookies == old(cookies) && bufferSize == old(bufferSize) && locale == old(locale)
      ensures characterEncoding == old(characterEncoding) && status == old(status) && contentType == old(contentType)
    {
      AddHeader(name, Text.IntToString(value));
    }

    /** `setIntHeader` and `setDateHeader`: the number's decimal rendering replaces the values. */
    method SetIntHeader(name: string, value: int)
      modifies this
      ensures GetHeader(name) == Ok(Some(Text.IntToString(value)))
      ensures headers == old(headers)[name := [Text.IntToString(value)]]
      ensures cookies == old(cookies) && bufferSize == old(bufferSize) && locale == old(locale)
      ensures characterEncoding == old(characterEncoding) && status == old(status) && contentType == old(contentType)
    {
      SetHeader(name, Text.IntToString(value));
    }

    /** `addCookie(cookie)`: appends to the cookie list. */
    method AddCookie(cookie: Env.Cookie)
      modifies this
      ensures cookies == old(cookies) + [cookie]
      ensures headers == old(headers) && bufferSize == old(bufferSize) && locale == old(locale)
      ensures characterEncoding == old(characterEncoding) && status == old(status) && contentType == old(contentType)
    {
      cookies := cookies + [cookie];
    }

    /** `setStatus(sc)` and `setStatus(sc, sm)`: the message is ignored. */
    method SetStatus(sc: int)
      modifies this
      ensures status == sc
      ensures headers == old(headers) && cookies == old(cookies) && bufferSize == old(bufferSize)
      ensures locale == old(locale) && characterEncoding == old(characterEncoding) && contentType == old(contentType)
    {
      status := sc;
    }

    /** `setBufferSize(size)`. */
    method SetBufferSize(size: int)
      modifies this
      ensures bufferSize == size
      ensures headers == old(headers) && cookies == old(cookies) && locale == old(locale)
      ensures characterEncoding == old(characterEncoding) && status == old(status) && contentType == old(contentType)
    {
      bufferSize := size;
    }

    /** `setCharacterEncoding(charset)`. */
    method SetCharacterEncoding(charset: string)
      modifies this
      ensures characterEncoding == charset
      ensures headers == old(headers) && cookies == old(cookies) && bufferSize == old(bufferSize)
      ensures locale == old(locale) && status == old(status) && contentType == old(contentType)
    {
      characterEncoding := charset;
    }

    /** `setLocale(loc)`. */
    method SetLocale(loc: string)
      modifies this
      ensures locale == loc
      ensures headers == old(headers) && cookies == old(cookies) && bufferSize == old(bufferSize)
      ensures characterEncoding == old(characterEncoding) && status == old(status) && contentType == old(contentType)
    {
      locale := loc;
    }

    /** `setContentType(type)`: null clears it. */
    method SetContentType(contentType: Option<string>)
      modifies this
      ensures this.contentType == contentType
      ensures headers == old(headers) && cookies == old(cookies) && bufferSize == old(bufferSize)
      ensures locale == old(locale) && characterEncoding == old(characterEncoding) && status == old(status)
    {
      this.contentType := contentType;
    }
  }
}
