/**
 * A standalone HTTP session (MockHttpSession.kt): an attribute map, a
 * validity flag cleared by `invalidate`, and an id drawn from a shared
 * counter. Whether an invalidated session refuses to be used is the
 * environment's `strictSessionValidityChecks` setting, passed to each
 * operation as `strict`.
 */
module MockHttpSessions {
  import opened Wrappers
  import Text
  import Ranges
  import Env = MockHttpEnvironment

  /** `IllegalStateException("invalidated: ...")`. */
  datatype SessionFailure = Invalidated

  /** `checkValid()`: only an invalidated session under strict checks fails. */
  function CheckValid(valid: bool, strict: bool): (r: Outcome<SessionFailure>)
    ensures r.Fail? <==> !valid && strict
  {
    if !valid && strict then Fail(Invalidated) else Pass
  }

  /** The session id of the `n`-th value drawn from the counter. */
  function IdOf(n: nat): string
  {
    Text.IntToString(Ranges.Wrap32(n))
  }

  /**
   * The counter wraps around like Kotlin's `Int`, so an id comes back only
   * after 2^32 draws: draws fewer than 2^32 apart give different ids.
   */
  lemma IdsDistinct(a: nat, b: nat)
    requires a < b < a + 0x1_0000_0000
    ensures IdOf(a) != IdOf(b)
  {
    Ranges.Wrap32Injective(a, b);
    Text.IntToStringInjective(Ranges.Wrap32(a), Ranges.Wrap32(b));
  }

  /** The companion's `sessionIdGenerator`, an `AtomicInteger` starting at 0. */
  class SessionIdGenerator {
    var value: Ranges.Int32
    /** How many ids have been drawn. */
    ghost var draws: nat

    ghost predicate Valid()
      reads this
    {
      value == Ranges.Wrap32(draws)
    }

    constructor()
      ensures Valid() && draws == 0
    {
      value := 0;
      draws := 0;
    }

    /** `generateSessionId()`: `incrementAndGet().toString()`. */
    method Generate() returns (id: string)
      requires Valid()
      modifies this
      ensures Valid() && draws == old(draws) + 1
      ensures id == IdOf(draws)
    {
      value := Ranges.Wrap32(value + 1);
      draws := draws + 1;
      assert Ranges.Wrap32(Ranges.Wrap32(draws - 1) + 1) == Ranges.Wrap32(draws) by {
        Wrap32Step(draws - 1);
      }
      id := Text.IntToString(value);
    }
  }

  /** Incrementing a wrapped value wraps the incremented count. */
  lemma Wrap32Step(n: int)
    ensures Ranges.Wrap32(Ranges.Wrap32(n) + 1) == Ranges.Wrap32(n + 1)
  {
    var m := 0x1_0000_0000;
    var w := Ranges.Wrap32(n);
    assert n - Ranges.INT_MIN == ((n - Ranges.INT_MIN) / m) * m + (w - Ranges.INT_MIN);
    assert n + 1 - Ranges.INT_MIN == ((n - Ranges.INT_MIN) / m) * m + (w + 1 - Ranges.INT_MIN);
    ModShift(w + 1 - Ranges.INT_MIN, (n - Ranges.INT_MIN) / m, m);
  }

  /** Adding a multiple of the modulus does not change the remainder. */
  lemma ModShift(x: int, q: int, m: int)
    requires m > 0
    ensures (q * m + x) % m == x % m
  {
    var d := x / m;
    assert x == d * m + x % m;
    assert q * m + x == (q + d) * m + x % m;
    ModUnique(q * m + x, q + d, x % m, m);
  }

  /** Euclidean division is unique: a remainder in [0, m) is the remainder. */
  lemma ModUnique(y: int, a: int, r: int, m: int)
    requires m > 0 && 0 <= r < m && y == a * m + r
    ensures y % m == r
  {
    var a', r' := y / m, y % m;
    assert y == a' * m + r';
    assert (a - a') * m == r' - r;
    if a != a' {
      MultipleAtLeast(a - a', m);
    }
  }

  /** The entries of `source` already copied: those no longer pending. */
  function Copied<V>(source: map<string, V>, pending: set<string>): (m: map<string, V>)
    ensures m.Keys == source.Keys - pending
  {
    map k | k in source.Keys - pending :: source[k]
  }

  /** Copying one more pending entry extends what has been copied by that entry. */
  lemma CopiedStep<V>(base: map<string, V>, source: map<string, V>, pending: set<string>, name: string)
    requires name in pending && pending <= source.Keys
    ensures (base + Copied(source, pending))[name := source[name]] == base + Copied(source, pending - {name})
  {
    var m := Copied(source, pending - {name});
    assert m == Copied(source, pending)[name := source[name]];
  }

  /** A nonzero multiple of `m` is at least `m` away from 0. */
  lemma MultipleAtLeast(k: int, m: int)
    requires m > 0 && k != 0
    ensures k * m >= m || k * m <= -m
  {
    if k > 0 {
      PositiveMultiple(k, m);
    } else {
      PositiveMultiple(-k, m);
      assert k * m == -((-k) * m);
    }
  }

  lemma {:induction false} PositiveMultiple(k: nat, m: int)
    requires k >= 1 && m > 0
    ensures k * m >= m
  {
    if k > 1 {
      PositiveMultiple(k - 1, m);
      assert k * m == (k - 1) * m + m;
    }
  }

  class MockHttpSession<V(==)> {
    var sessionId: string
    /** The servlet context, by identity. */
    const servletContext: nat
    const creationTime: int
    var maxInactiveInterval: int
    var attributes: map<string, V>
    var valid: bool

    constructor(sessionId: string, servletContext: nat, creationTime: int, maxInactiveInterval: int)
      ensures this.sessionId == sessionId && this.servletContext == servletContext
      ensures this.creationTime == creationTime && this.maxInactiveInterval == maxInactiveInterval
      ensures attributes == map[] && valid
    {
      this.sessionId := sessionId;
      this.servletContext := servletContext;
      this.creationTime := creationTime;
      this.maxInactiveInterval := maxInactiveInterval;
      attributes := map[];
      valid := true;
    }

    /** `create(ctx)`: a fresh id from the counter, the given clock reading, a 30 minute timeout. */
    static method Create(gen: SessionIdGenerator, ctx: nat, now: int) returns (s: MockHttpSession<V>)
      requires gen.Valid()
      modifies gen
      ensures gen.Valid() && gen.draws == old(gen.draws) + 1
      ensures fresh(s) && s.sessionId == IdOf(gen.draws) && s.servletContext == ctx
      ensures s.creationTime == now && s.maxInactiveInterval == 30 && s.attributes == map[] && s.valid
    {
      var id := gen.Generate();
      s := new MockHttpSession<V>(id, ctx, now, 30);
    }

    /**
     * The copying constructor `MockHttpSession(session)`: the other session's
     * id, context, last access time (0) and timeout, then its attributes.
     * Reading the other session checks its validity.
     */
    static method CopyOf(other: MockHttpSession<V>, strict: bool) returns (r: Result<MockHttpSession<V>, SessionFailure>)
      ensures r.Err? <==> !other.valid && strict
      ensures r.Ok? ==> fresh(r.value)
      ensures r.Ok? ==> r.value.sessionId == other.sessionId && r.value.servletContext == other.servletContext
      ensures r.Ok? ==> r.value.creationTime == 0 && r.value.maxInactiveInterval == other.maxInactiveInterval
      ensures r.Ok? ==> r.value.attributes == other.attributes && r.value.valid
    {
      var lastAccessed := other.GetLastAccessedTime(strict);
      if lastAccessed.Err? {
        return Err(lastAccessed.error);
      }
      var s := new MockHttpSession<V>(other.sessionId, other.servletContext, lastAccessed.value, other.maxInactiveInterval);
      var copied := s.CopyAttributes(other, strict);
      return Ok(s);
    }

    /** `isValid`. */
    function IsValid(): bool
      reads this
    {
      valid
    }

    /** `destroy()`: every attribute goes; nothing else changes. */
    method Destroy()
      modifies this
      ensures attributes == map[]
      ensures sessionId == old(sessionId) && valid == old(valid) && maxInactiveInterval == old(maxInactiveInterval)
    {
      attributes := map[];
    }

    /** `getCreationTime()`. */
    function GetCreationTime(strict: bool): (r: Result<int, SessionFailure>)
      reads this
      ensures r.Ok? <==> CheckValid(valid, strict).Pass?
      ensures r.Ok? ==> r.value == creationTime
    {
      if CheckValid(valid, strict).Fail? then Err(Invalidated) else Ok(creationTime)
    }

    /** `getLastAccessedTime()`: always 0 on a usable session. */
    function GetLastAccessedTime(strict: bool): (r: Result<int, SessionFailure>)
      reads this
      ensures r.Ok? <==> CheckValid(valid, strict).Pass?
      ensures r.Ok? ==> r.value == 0
    {
      if CheckValid(valid, strict).Fail? then Err(Invalidated) else Ok(0)
    }

    /** `getId()`: answers even on an invalidated session. */
    function GetId(): string
      reads this
    {
      sessionId
    }

    /** `getServletContext()`: answers even on an invalidated session. */
    function GetServletContext(): nat
    {
      servletContext
    }

    /** `setMaxInactiveInterval(interval)`: no validity check. */
    method SetMaxInactiveInterval(interval: int)
      modifies this
      ensures maxInactiveInterval == interval
      ensures attributes == old(attributes) && valid == old(valid) && sessionId == old(sessionId)
    {
      maxInactiveInterval := interval;
    }

    /** `getAttribute(name)`: the stored value, or null. */
    function GetAttribute(name: string, strict: bool): (r: Result<Option<V>, SessionFailure>)
      reads this
      ensures r.Ok? <==> valid || !strict
      ensures r.Ok? ==> r.value == Env.Lookup(attributes, name)
    {
      if CheckValid(valid, strict).Fail? then Err(Invalidated) else Ok(Env.Lookup(attributes, name))
    }

    /** `getAttributeNames()`. */
    function GetAttributeNames(strict: bool): (r: Result<set<string>, SessionFailure>)
      reads this
      ensures r.Ok? <==> valid || !strict
      ensures r.Ok? ==> forall n :: n in r.value <==> Env.Lookup(attributes, n).Some?
    {
      if CheckValid(valid, strict).Fail? then Err(Invalidated) else Ok(attributes.Keys)
    }

    /** `setAttribute(name, value)`: a null value removes the attribute; other attributes stay. */
    method SetAttribute(name: string, value: Option<V>, strict: bool) returns (r: Outcome<SessionFailure>)
      modifies this
      ensures r == CheckValid(valid, strict)
      ensures r.Pass? ==> attributes == Env.PutOrRemove(old(attributes), name, value)
      ensures r.Fail? ==> attributes == old(attributes)
      ensures valid == old(valid) && sessionId == old(sessionId) && maxInactiveInterval == old(maxInactiveInterval)
    {
      r := CheckValid(valid, strict);
      if r.Pass? {
        attributes := Env.PutOrRemove(attributes, name, value);
      }
    }

    /** `removeAttribute(name)`. */
    method RemoveAttribute(name: string, strict: bool) returns (r: Outcome<SessionFailure>)
      modifies this
      ensures r == CheckValid(valid, strict)
      ensures r.Pass? ==> attributes == old(attributes) - {name}
      ensures r.Fail? ==> attributes == old(attributes)
      ensures valid == old(valid) && sessionId == old(sessionId) && maxInactiveInterval == old(maxInactiveInterval)
    {
      r := CheckValid(valid, strict);
      if r.Pass? {
        attributes := attributes - {name};
      }
    }

    /**
     * `copyAttributes(other)`: every attribute of the other session is stored
     * here, over any of the same name. Only the other session's validity is
     * checked.
     */
    method CopyAttributes(other: MockHttpSession<V>, strict: bool) returns (r: Outcome<SessionFailure>)
      modifies this
      ensures r == CheckValid(old(other.valid), strict)
      ensures r.Pass? ==> attributes == old(attributes) + old(other.attributes)
      ensures r.Fail? ==> attributes == old(attributes)
      ensures valid == old(valid) && sessionId == old(sessionId) && maxInactiveInterval == old(maxInactiveInterval)
    {
      var names := other.GetAttributeNames(strict);
      if names.Err? {
        return Fail(names.error);
      }
      ghost var source := other.attributes;
      var pending := names.value;
      while pending != {}
        invariant pending <= source.Keys
        invariant other.valid == old(other.valid) && valid == old(valid)
        invariant sessionId == old(sessionId) && maxInactiveInterval == old(maxInactiveInterval)
        invariant forall k :: k in pending ==> k in other.attributes && other.attributes[k] == source[k]
        invariant attributes == old(attributes) + Copied(source, pending)
        decreases pending
      {
        var name :| name in pending;
        var value := other.GetAttribute(name, strict);
        CopiedStep(old(attributes), source, pending, name);
        attributes := attributes[name := value.value.value];
        pending := pending - {name};
      }
      assert Copied(source, pending) == source;
      return Pass;
    }

    /** `invalidate()`: checks validity, then marks the session invalid. */
    method Invalidate(strict: bool) returns (r: Outcome<SessionFailure>)
      modifies this
      ensures r.Fail? <==> !old(valid) && strict
      ensures !valid
      ensures attributes == old(attributes) && sessionId == old(sessionId) && maxInactiveInterval == old(maxInactiveInterval)
    {
      r := CheckValid(valid, strict);
      if r.Pass? {
        valid := false;
      }
    }

    /** `isNew()`: never new. */
    function IsNew(strict: bool): (r: Result<bool, SessionFailure>)
      reads this
      ensures r.Ok? <==> valid || !strict
      ensures r.Ok? ==> !r.value
    {
      if CheckValid(valid, strict).Fail? then Err(Invalidated) else Ok(false)
    }

    /** `changeSessionId()`: a new id from the counter, different from the last 2^32 - 1 drawn before it. */
    method ChangeSessionId(gen: SessionIdGenerator) returns (id: string)
      requires gen.Valid()
      modifies this, gen
      ensures gen.Valid() && gen.draws == old(gen.draws) + 1
      ensures id == sessionId == IdOf(gen.draws)
      ensures forall k: nat :: k < gen.draws < k + 0x1_0000_0000 ==> id != IdOf(k)
      ensures attributes == old(attributes) && valid == old(valid) && maxInactiveInterval == old(maxInactiveInterval)
    {
      sessionId := gen.Generate();
      id := sessionId;
      forall k: nat | k < gen.draws < k + 0x1_0000_0000
        ensures id != IdOf(k)
      {
        IdsDistinct(k, gen.draws);
      }
    }
  }
}
