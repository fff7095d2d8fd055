/**
 * The mock servlet context (MockContext.kt): init parameters that can be set
 * only once, context attributes, the session timeout and the request and
 * response character encodings. The MIME type of a file name is guessed by
 * the JDK; that guess is a parameter here.
 */
module MockContexts {
  import opened Wrappers
  import Env = MockHttpEnvironment

  const DEFAULT_SESSION_TIMEOUT: int := 30
  const OCTET_STREAM: string := "application/octet-stream"
  const MAJOR_VERSION: int := 3
  const MINOR_VERSION: int := 0
  const SERVER_INFO: string := "Mock"
  const VIRTUAL_SERVER_NAME: string := "mock/localhost"

  /** `getMimeType(file)`: the JDK's guess from the file name, or the generic binary type. */
  function GetMimeType(file: string, guess: string -> Option<string>): (r: string)
    ensures guess(file).Some? ==> r == guess(file).value
    ensures guess(file).None? ==> r == OCTET_STREAM
  {
    guess(file).GetOr(OCTET_STREAM)
  }

  /** `MockContext`. */
  class MockContext<V> {
    var initParameters: map<string, string>
    var attributes: map<string, V>
    var sessionTimeout: int
    var requestCharacterEncoding: Option<string>
    var responseCharacterEncoding: Option<string>

    constructor()
      ensures initParameters == map[] && attributes == map[]
      ensures sessionTimeout == DEFAULT_SESSION_TIMEOUT
      ensures requestCharacterEncoding == None && responseCharacterEncoding == None
    {
      initParameters := map[];
      attributes := map[];
      sessionTimeout := DEFAULT_SESSION_TIMEOUT;
      requestCharacterEncoding := None;
      responseCharacterEncoding := None;
    }

    /** `getInitParameter(name)`. */
    function GetInitParameter(name: string): (r: Option<string>)
      reads this
      ensures r.Some? <==> name in initParameters
      ensures r.Some? ==> r.value == initParameters[name]
    {
      Env.Lookup(initParameters, name)
    }

    /** `getInitParameterNames()`. */
    function GetInitParameterNames(): (r: set<string>)
      reads this
      ensures forall n :: n in r <==> GetInitParameter(n).Some?
    {
      initParameters.Keys
    }

    /**
     * `setInitParameter(name, value)`: stores the value only when the
     * parameter is not set yet, and answers whether it did.
     */
    method SetInitParameter(name: string, value: string) returns (inserted: bool)
      modifies this
      ensures inserted <==> old(GetInitParameter(name)).None?
      ensures inserted ==> initParameters == old(initParameters)[name := value]
      ensures !inserted ==> initParameters == old(initParameters)
      ensures GetInitParameter(name) == Some(if inserted then value else old(initParameters[name]))
      ensures attributes == old(attributes) && sessionTimeout == old(sessionTimeout)
      ensures requestCharacterEncoding == old(requestCharacterEncoding)
      ensures responseCharacterEncoding == old(responseCharacterEncoding)
    {
      inserted := name !in initParameters;
      if inserted {
        initParameters := initParameters[name := value];
      }
    }

    /** `getAttribute(name)`. */
    function GetAttribute(name: string): (r: Option<V>)
      reads this
      ensures r.Some? <==> name in attributes
      ensures r.Some? ==> r.value == attributes[name]
    {
      Env.Lookup(attributes, name)
    }

    /** `getAttributeNames()`. */
    function GetAttributeNames(): (r: set<string>)
      reads this
      ensures forall n :: n in r <==> GetAttribute(n).Some?
    {
      attributes.Keys
    }

    /** `setAttribute(name, value)`: a null value removes the attribute; other attributes stay. */
    method SetAttribute(name: string, value: Option<V>)
      modifies this
      ensures GetAttribute(name) == value
      ensures attributes == Env.PutOrRemove(old(attributes), name, value)
      ensures initParameters == old(initParameters) && sessionTimeout == old(sessionTimeout)
      ensures requestCharacterEncoding == old(requestCharacterEncoding)
      ensures responseCharacterEncoding == old(responseCharacterEncoding)
    {
      attributes := Env.PutOrRemove(attributes, name, value);
    }

    /** `removeAttribute(name)`. */
    method RemoveAttribute(name: string)
      modifies this
      ensures GetAttribute(name).None?
      ensures attributes == old(attributes) - {name}
      ensures initParameters == old(initParameters) && sessionTimeout == old(sessionTimeout)
      ensures requestCharacterEncoding == old(requestCharacterEncoding)
      ensures responseCharacterEncoding == old(responseCharacterEncoding)
    {
      attributes := attributes - {name};
    }

    /** `setSessionTimeout(t)`: `getSessionTimeout()` answers `t` from now on. */
    method SetSessionTimeout(timeout: int)
      modifies this
      ensures sessionTimeout == timeout
      ensures initParameters == old(initParameters) && attributes == old(attributes)
      ensures requestCharacterEncoding == old(requestCharacterEncoding)
      ensures responseCharacterEncoding == old(responseCharacterEncoding)
    {
      sessionTimeout := timeout;
    }

    /** `setRequestCharacterEncoding(encoding)`. */
    method SetRequestCharacterEncoding(encoding: Option<string>)
      modifies this
      ensures requestCharacterEncoding == encoding
      ensures responseCharacterEncoding == old(responseCharacterEncoding)
      ensures initParameters == old(initParameters) && attributes == old(attributes) && sessionTimeout == old(sessionTimeout)
    {
      requestCharacterEncoding := encoding;
    }

    /** `setResponseCharacterEncoding(encoding)`. */
    method SetResponseCharacterEncoding(encoding: Option<string>)
      modifies this
      ensures responseCharacterEncoding == encoding
      ensures requestCharacterEncoding == old(requestCharacterEncoding)
      ensures initParameters == old(initParameters) && attributes == old(attributes) && sessionTimeout == old(sessionTimeout)
    {
      responseCharacterEncoding := encoding;
    }
  }

  /**
   * An init parameter, once set, is never replaced: a second
   * `setInitParameter` of the same name answers false whatever its value.
   */
  method SetInitParameterTwice<V>(ctx: MockContext<V>, name: string, first: string, second: string)
    returns (a: bool, b: bool)
    modifies ctx
    ensures a <==> old(ctx.GetInitParameter(name)).None?
    ensures !b
    ensures ctx.GetInitParameter(name) == Some(old(ctx.GetInitParameter(name)).GetOr(first))
  {
    a := ctx.SetInitParameter(name, first);
    b := ctx.SetInitParameter(name, second);
  }
}
