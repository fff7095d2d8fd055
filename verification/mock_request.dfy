/**
 * The mock servlet request (MockRequest.kt): request parameters and headers
 * as maps from a name to its values, a cookie array that stays null until
 * the first cookie is added, optional multi-part parts, and request
 * attributes. Ports come from the environment's settings; the session is
 * the one the request was created for.
 */
module MockRequests {
  import opened Wrappers
  import Text
  import Ranges
  import Env = MockHttpEnvironment
  import Seqs
  import Sessions = MockHttpSessions

  const PROTOCOL: string := "HTTP/1.1"
  const METHOD: string := "GET"
  const CONTENT_LENGTH: int := -1
  const DATE_HEADER: int := -1
  const USER_AGENT: string := "user-agent"
  const DEFAULT_USER_AGENT: string := "IntelliJ IDEA/182.4892.20"
  const NO_MULTIPART: string := "Unable to process parts as no multi-part configuration has been provided"

  /** Why a request accessor throws. */
  datatype RequestFailure =
    | IndexOutOfBounds(name: string)     // `values[0]` on a name with no values
    | NumberFormat(text: string)         // `toInt()` on a header that is not a number
    | NoMultipartConfig(message: string) // parts asked for but never configured

  /** A part of a multi-part request, by name; its content is not modelled. */
  datatype Part = Part(name: string)

  /**
   * Kotlin's `String.toInt()`: an optional sign, then at least one ASCII
   * digit and nothing else, and a value a 32-bit `Int` can hold.
   */
  function ParseInt(s: string): (r: Option<Ranges.Int32>)
    ensures r.Some? ==> |s| > 0
  {
    if |s| == 0 then None
    else
      var negative := s[0] == '-';
      var digits := if s[0] == '-' || s[0] == '+' then s[1..] else s;
      if |digits| == 0 || !Text.AllDigits(digits) then None
      else
        var magnitude: int := Text.DigitsValue(digits);
        var value := if negative then -magnitude else magnitude;
        if Ranges.INT_MIN <= value <= Ranges.INT_MAX then Some(value) else None
  }

  /** Parsing an `Int`'s decimal rendering gives the `Int` back. */
  lemma ParseIntToString(n: Ranges.Int32)
    ensures ParseInt(Text.IntToString(n)) == Some(n)
  {
    var s := Text.IntToString(n);
    if n < 0 {
      var m: nat := -(n as int);
      assert s[1..] == Text.NatToString(m);
      Text.NatToStringRoundTrip(m);
    } else {
      Text.NatToStringRoundTrip(n);
    }
  }

  /** Text with a character that is neither a sign nor a digit does not parse. */
  lemma ParseIntRejectsNonDigit(s: string, i: nat)
    requires i < |s| && !Text.IsDigit(s[i]) && (i > 0 || (s[0] != '-' && s[0] != '+'))
    ensures ParseInt(s).None?
  {
    if s[0] == '-' || s[0] == '+' {
      assert s[1..][i - 1] == s[i];
    }
  }

  /** `MockRequest`: the state the servlet API reads and the test sets up. */
  class MockRequest<V(==)> {
    const session: Sessions.MockHttpSession<V>
    const env: Env.Environment
    /** Set by `setCharacterEncoding` but never observable: `getCharacterEncoding()` always answers null. */
    var characterEncoding: Option<string>
    var parameters: map<string, seq<string>>
    var headers: map<string, seq<string>>
    var cookies: Option<seq<Env.Cookie>>
    var parts: Option<seq<Part>>
    var locale: string
    var attributes: map<string, V>

    /** A new request carries only the default user-agent header. */
    constructor(session: Sessions.MockHttpSession<V>, env: Env.Environment)
      ensures this.session == session && this.env == env
      ensures headers == map[USER_AGENT := [DEFAULT_USER_AGENT]]
      ensures GetHeader(USER_AGENT) == Ok(Some(DEFAULT_USER_AGENT))
      ensures parameters == map[] && cookies == None && parts == None && attributes == map[]
      ensures characterEncoding == None && locale == "en_US"
    {
      this.session := session;
      this.env := env;
      characterEncoding := None;
      parameters := map[];
      headers := map[USER_AGENT := [DEFAULT_USER_AGENT]];
      cookies := None;
      parts := None;
      locale := "en_US";
      attributes := map[];
    }

    /** `getParameterValues(name)`: every value, null when the parameter is not set. */
    function GetParameterValues(name: string): (r: Option<seq<string>>)
      reads this
      ensures r.Some? <==> name in parameters
      ensures r.Some? ==> r.value == parameters[name]
    {
      Env.Lookup(parameters, name)
    }

    /** `getParameter(name)`: the first value, null when the parameter is not set. */
    function GetParameter(name: string): (r: Result<Option<string>, RequestFailure>)
      reads this
      ensures r == Ok(None) <==> GetParameterValues(name).None?
      ensures r.Err? <==> GetParameterValues(name) == Some([])
      ensures r.Ok? && r.value.Some? ==> Some(r.value.value) == FirstOf(GetParameterValues(name).value)
    {
      match Env.FirstValue(parameters, name)
      case Ok(v) => Ok(v)
      case Err(e) => Err(IndexOutOfBounds(e.name))
    }

    /** `setParameter(name, values...)`: `values` replace whatever the parameter had. */
    method SetParameter(name: string, values: seq<string>)
      modifies this
      ensures parameters == old(parameters)[name := values]
      ensures GetParameterValues(name) == Some(values)
      ensures GetParameter(name) == if |values| > 0 then Ok(Some(values[0])) else Err(IndexOutOfBounds(name))
      ensures headers == old(headers) && cookies == old(cookies) && parts == old(parts) && attributes == old(attributes)
      ensures locale == old(locale) && characterEncoding == old(characterEncoding)
    {
      parameters := parameters[name := values];
    }

    /** `getParameterNames()`. */
    function GetParameterNames(): (r: set<string>)
      reads this
      ensures forall n :: n in r <==> GetParameterValues(n).Some?
    {
      parameters.Keys
    }

    /** `getHeader(name)`: the first value, null when the header is absent. */
    function GetHeader(name: string): (r: Result<Option<string>, RequestFailure>)
      reads this
      ensures r == Ok(None) <==> name !in headers
      ensures r.Err? <==> name in headers && headers[name] == []
      ensures r.Ok? && r.value.Some? ==> Some(r.value.value) == FirstOf(headers[name])
    {
      match Env.FirstValue(headers, name)
      case Ok(v) => Ok(v)
      case Err(e) => Err(IndexOutOfBounds(e.name))
    }

    /** `getHeaders(name)`: every value, an empty enumeration when the header is absent. */
    function GetHeaders(name: string): (r: seq<string>)
      reads this
      ensures name !in headers ==> r == []
      ensures name in headers ==> r == headers[name]
    {
      Env.Lookup(headers, name).GetOr([])
    }

    /** `getHeaderNames()`. */
    function GetHeaderNames(): (r: set<string>)
      reads this
      ensures forall n :: n in r <==> GetHeader(n) != Ok(None)
    {
      headers.Keys
    }

    /**
     * `getIntHeader(name)`: -1 when the header is absent, otherwise its first
     * value parsed as an `Int`, failing when that is not a number.
     */
    function GetIntHeader(name: string): (r: Result<int, RequestFailure>)
      reads this
      ensures name !in headers ==> r == Ok(-1)
      ensures name in headers && |headers[name]| > 0 ==>
                (r.Ok? <==> ParseInt(headers[name][0]).Some?)
      ensures forall n: Ranges.Int32 :: name in headers && |headers[name]| > 0 && headers[name][0] == Text.IntToString(n) ==> r == Ok(n)
    {
      match GetHeader(name)
      case Err(e) => Err(e)
      case Ok(None) => Ok(-1)
      case Ok(Some(h)) =>
        assert forall n: Ranges.Int32 :: h == Text.IntToString(n) ==> ParseInt(h) == Some(n) by {
          forall n: Ranges.Int32 | h == Text.IntToString(n)
            ensures ParseInt(h) == Some(n)
          {
            ParseIntToString(n);
          }
        }
        match ParseInt(h)
        case None => Err(NumberFormat(h))
        case Some(v) => Ok(v)
    }

    /** `addCookie(cookie)`: the first call creates the array; every call appends. */
    method AddCookie(cookie: Env.Cookie)
      modifies this
      ensures cookies == Some(old(cookies).GetOr([]) + [cookie])
      ensures parameters == old(parameters) && headers == old(headers) && parts == old(parts) && attributes == old(attributes)
      ensures locale == old(locale) && characterEncoding == old(characterEncoding)
    {
      if cookies.None? {
        cookies := Some([]);
      }
      cookies := Some(cookies.value + [cookie]);
    }

    /** `getPart(name)`: the first part with that name; no multi-part configuration is a failure. */
    function GetPart(name: string): (r: Result<Option<Part>, RequestFailure>)
      reads this
      ensures r.Err? <==> parts.None?
      ensures r.Ok? ==> r.value == Seqs.FirstOrNull(parts.value, (p: Part) => p.name == name)
      ensures r.Ok? && r.value.Some? ==> r.value.value.name == name && r.value.value in parts.value
      ensures r.Ok? && r.value.None? ==> forall i :: 0 <= i < |parts.value| ==> parts.value[i].name != name
    {
      match parts
      case None => Err(NoMultipartConfig(NO_MULTIPART))
      case Some(ps) => Ok(Seqs.FirstOrNull(ps, (p: Part) => p.name == name))
    }

    /** `getParts()`: the configured parts, failing like `getPart` when there are none. */
    function GetParts(): (r: Result<seq<Part>, RequestFailure>)
      reads this
      ensures r.Err? <==> parts.None?
      ensures r.Err? ==> r.error == NoMultipartConfig(NO_MULTIPART) && GetPart("").Err?
      ensures r.Ok? ==> Some(r.value) == parts
    {
      match parts
      case None => Err(NoMultipartConfig(NO_MULTIPART))
      case Some(ps) => Ok(ps)
    }

    /** `getAttribute(name)`. */
    function GetAttribute(name: string): (r: Option<V>)
      reads this
      ensures r.Some? <==> name in attributes
      ensures r.Some? ==> r.value == attributes[name]
    {
      Env.Lookup(attributes, name)
    }

    /** `setAttribute(name, value)`: a null value removes the attribute. */
    method SetAttribute(name: string, value: Option<V>)
      modifies this
      ensures GetAttribute(name) == value
      ensures attributes == Env.PutOrRemove(old(attributes), name, value)
      ensures parameters == old(parameters) && headers == old(headers) && cookies == old(cookies) && parts == old(parts)
      ensures locale == old(locale) && characterEncoding == old(characterEncoding)
    {
      attributes := Env.PutOrRemove(attributes, name, value);
    }

    /** `removeAttribute(name)`. */
    method RemoveAttribute(name: string)
      modifies this
      ensures GetAttribute(name).None?
      ensures attributes == old(attributes) - {name}
      ensures parameters == old(parameters) && headers == old(headers) && cookies == old(cookies) && parts == old(parts)
      ensures locale == old(locale) && characterEncoding == old(characterEncoding)
    {
      attributes := attributes - {name};
    }

    /** `setCharacterEncoding(env)`. */
    method SetCharacterEncoding(encoding: string)
      modifies this
      ensures characterEncoding == Some(encoding)
      ensures parameters == old(parameters) && headers == old(headers) && attributes == old(attributes)
      ensures cookies == old(cookies) && parts == old(parts) && locale == old(locale)
    {
      characterEncoding := Some(encoding);
    }

    /** `getRequestedSessionId()`: the id of the session the request belongs to, read now. */
    function GetRequestedSessionId(): (r: string)
      reads this, session
      ensures r == session.GetId()
    {
      session.sessionId
    }

    /** `getServerPort()`, `getLocalPort()`, `getRemotePort()`: the environment's current settings. */
    function Ports(): (r: (int, int, int))
      reads this, env
      ensures r == (env.serverPort, env.localPort, env.remotePort)
    {
      (env.serverPort, env.localPort, env.remotePort)
    }
  }

  /** The first element of a list, null when it is empty. */
  function FirstOf(values: seq<string>): Option<string>
  {
    if |values| > 0 then Some(values[0]) else None
  }
}
