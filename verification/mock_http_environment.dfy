/**
 * The global settings of the mock servlet environment and the per-servlet
 * configuration (MockHttpEnvironment.kt), with the `putOrRemove` map update
 * every mock attribute store uses.
 */
module MockHttpEnvironment {
  import opened Wrappers

  /** `map[key]`: the value stored under `key`, null when there is none. */
  function Lookup<V>(m: map<string, V>, key: string): (r: Option<V>)
    ensures r.Some? <==> key in m
    ensures r.Some? ==> r.value == m[key]
  {
    if key in m then Some(m[key]) else None
  }

  /**
   * `putOrRemove(key, value)`: afterwards the key maps to `value` (a null
   * value removes it) and every other key maps to what it did before.
   */
  function PutOrRemove<V>(m: map<string, V>, key: string, value: Option<V>): (r: map<string, V>)
    ensures Lookup(r, key) == value
    ensures forall k :: k in m && k != key ==> Lookup(r, k) == Lookup(m, k)
    ensures r.Keys == if value.Some? then m.Keys + {key} else m.Keys - {key}
  {
    if value.None? then m - {key} else m[key := value.value]
  }

  /** Storing the same value twice is storing it once; a later store of the same key wins. */
  lemma PutOrRemoveOverwrites<V>(m: map<string, V>, key: string, first: Option<V>, second: Option<V>)
    ensures PutOrRemove(PutOrRemove(m, key, first), key, second) == PutOrRemove(m, key, second)
  {
    var a := PutOrRemove(PutOrRemove(m, key, first), key, second);
    var b := PutOrRemove(m, key, second);
    assert a.Keys == b.Keys;
    forall k | k in a
      ensures a[k] == b[k]
    {
      assert Lookup(a, k) == Lookup(b, k);
    }
  }

  /** `values[0]` on an empty array or list: the index is out of bounds. */
  datatype NoFirstValue = NoFirstValue(name: string)

  /**
   * `map[name]?.get(0)`: null when the name is absent, the first value when
   * there is one, and an index failure when the name maps to no values.
   */
  function FirstValue(m: map<string, seq<string>>, name: string): (r: Result<Option<string>, NoFirstValue>)
    ensures r == Ok(None) <==> name !in m
    ensures r.Err? <==> name in m && m[name] == []
    ensures r.Ok? && r.value.Some? ==> name in m && |m[name]| > 0 && r.value.value == m[name][0]
  {
    if name !in m then Ok(None)
    else if |m[name]| == 0 then Err(NoFirstValue(name))
    else Ok(Some(m[name][0]))
  }

  /** A servlet cookie, by name and value. */
  datatype Cookie = Cookie(name: string, value: string)

  /** `MockServletConfig`: the per-servlet init parameters of the mocked Vaadin servlet. */
  class MockServletConfig {
    /** The servlet context, by identity. */
    const context: nat
    var servletInitParams: map<string, string>

    constructor(context: nat)
      ensures this.context == context && servletInitParams == map[]
    {
      this.context := context;
      servletInitParams := map[];
    }

    /** `getInitParameter(name)`: the servlet init parameter, null when it is not set. */
    function GetInitParameter(name: string): (r: Option<string>)
      reads this
      ensures r == Lookup(servletInitParams, name)
    {
      Lookup(servletInitParams, name)
    }

    /** `getInitParameterNames()`. */
    function GetInitParameterNames(): (r: set<string>)
      reads this
      ensures forall n :: n in r <==> GetInitParameter(n).Some?
    {
      servletInitParams.Keys
    }

    /** `getServletName()`. */
    function GetServletName(): string
    {
      "Vaadin Servlet"
    }
  }

  /** The `MockHttpEnvironment` object: settings the mock request and session read. */
  class Environment {
    var localPort: int
    var serverPort: int
    var remotePort: int
    var remoteAddr: string
    var authType: Option<string>
    var isSecure: bool
    /** Whether an invalidated session refuses to be used, as the servlet specification demands. */
    var strictSessionValidityChecks: bool

    /** The defaults: every port 8080, address 127.0.0.1, no auth type, not secure, lenient sessions. */
    constructor()
      ensures localPort == 8080 && serverPort == 8080 && remotePort == 8080
      ensures remoteAddr == "127.0.0.1" && authType == None && !isSecure
      ensures !strictSessionValidityChecks
    {
      localPort := 8080;
      serverPort := 8080;
      remotePort := 8080;
      remoteAddr := "127.0.0.1";
      authType := None;
      isSecure := false;
      strictSessionValidityChecks := false;
    }
  }
}
