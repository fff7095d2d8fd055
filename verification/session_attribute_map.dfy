/**
 * `HttpSession.attributes` (SessionAttributeMap.kt): a live mutable map
 * view of a session's attributes. Every read and write goes through the
 * session's own `getAttribute`/`setAttribute`/`removeAttribute`, so a
 * strict invalidated session makes the view fail too. The entry iterator
 * walks a snapshot of the attribute names and remembers the last name it
 * returned so that `remove()` can delete it.
 */
module SessionAttributeMaps {
  import opened Wrappers
  import Env = MockHttpEnvironment
  import Sessions = MockHttpSessions

  /** A map entry `key=value`. */
  datatype Entry<V> = Entry(key: string, value: V)

  /** The view over one session, with the environment's strictness setting. */
  class SessionAttributeMap<V(==)> {
    const session: Sessions.MockHttpSession<V>
    const strict: bool

    constructor(session: Sessions.MockHttpSession<V>, strict: bool)
      ensures this.session == session && this.strict == strict
    {
      this.session := session;
      this.strict := strict;
    }

    /** `get(key)`. */
    function Get(key: string): (r: Result<Option<V>, Sessions.SessionFailure>)
      reads this, session
      ensures r.Ok? <==> session.valid || !strict
      ensures r.Ok? ==> r.value == Env.Lookup(session.attributes, key)
    {
      session.GetAttribute(key, strict)
    }

    /** `containsKey(key)`: the attribute is non-null. */
    function ContainsKey(key: string): (r: Result<bool, Sessions.SessionFailure>)
      reads this, session
      ensures r.Ok? <==> session.valid || !strict
      ensures r.Ok? ==> (r.value <==> key in session.attributes)
    {
      match Get(key)
      case Err(e) => Err(e)
      case Ok(v) => Ok(v.Some?)
    }

    /** `isEmpty()`: the session has no attribute names. */
    function IsEmpty(): (r: Result<bool, Sessions.SessionFailure>)
      reads this, session
      ensures r.Ok? <==> session.valid || !strict
      ensures r.Ok? ==> (r.value <==> session.attributes == map[])
    {
      match session.GetAttributeNames(strict)
      case Err(e) => Err(e)
      case Ok(names) =>
        assert names == session.attributes.Keys;
        Ok(names == {})
    }

    /** The entry set's `size`: the number of attribute names. */
    function Size(): (r: Result<nat, Sessions.SessionFailure>)
      reads this, session
      ensures r.Ok? <==> session.valid || !strict
      ensures r.Ok? ==> r.value == |session.attributes|
    {
      match session.GetAttributeNames(strict)
      case Err(e) => Err(e)
      case Ok(names) =>
        assert names == session.attributes.Keys;
        Ok(|names|)
    }

    /** The entry set's `contains(entry)`: the session stores exactly that value under that key. */
    function ContainsEntry(e: Entry<V>): (r: Result<bool, Sessions.SessionFailure>)
      reads this, session
      ensures r.Ok? <==> session.valid || !strict
      ensures r.Ok? ==> (r.value <==> e.key in session.attributes && session.attributes[e.key] == e.value)
    {
      match Get(e.key)
      case Err(f) => Err(f)
      case Ok(v) => Ok(v == Some(e.value))
    }

    /** `put(key, value)`: answers the previous value and stores the new one. */
    method Put(key: string, value: V) returns (r: Result<Option<V>, Sessions.SessionFailure>)
      modifies session
      ensures r.Ok? <==> old(session.valid) || !strict
      ensures r.Ok? ==> r.value == Env.Lookup(old(session.attributes), key)
      ensures r.Ok? ==> session.attributes == old(session.attributes)[key := value]
      ensures r.Err? ==> session.attributes == old(session.attributes)
      ensures session.valid == old(session.valid) && session.sessionId == old(session.sessionId)
      ensures session.maxInactiveInterval == old(session.maxInactiveInterval)
    {
      var previous := session.GetAttribute(key, strict);
      if previous.Err? {
        return Err(previous.error);
      }
      var outcome := session.SetAttribute(key, Some(value), strict);
      return Ok(previous.value);
    }

    /** `remove(key)`: answers the previous value and deletes the attribute. */
    method Remove(key: string) returns (r: Result<Option<V>, Sessions.SessionFailure>)
      modifies session
      ensures r.Ok? <==> old(session.valid) || !strict
      ensures r.Ok? ==> r.value == Env.Lookup(old(session.attributes), key)
      ensures r.Ok? ==> session.attributes == old(session.attributes) - {key}
      ensures r.Err? ==> session.attributes == old(session.attributes)
      ensures session.valid == old(session.valid) && session.sessionId == old(session.sessionId)
      ensures session.maxInactiveInterval == old(session.maxInactiveInterval)
    {
      var previous := session.GetAttribute(key, strict);
      if previous.Err? {
        return Err(previous.error);
      }
      var outcome := session.RemoveAttribute(key, strict);
      return Ok(previous.value);
    }

    /** `remove(key, value)`: deletes the attribute only when it currently equals `value`. */
    method RemoveIfEquals(key: string, value: V) returns (r: Result<bool, Sessions.SessionFailure>)
      modifies session
      ensures r.Ok? <==> old(session.valid) || !strict
      ensures r.Ok? ==> (r.value <==> Env.Lookup(old(session.attributes), key) == Some(value))
      ensures r.Ok? && r.value ==> session.attributes == old(session.attributes) - {key}
      ensures !(r.Ok? && r.value) ==> session.attributes == old(session.attributes)
      ensures session.valid == old(session.valid) && session.sessionId == old(session.sessionId)
      ensures session.maxInactiveInterval == old(session.maxInactiveInterval)
    {
      var current := Get(key);
      if current.Err? {
        return Err(current.error);
      }
      if current.value == Some(value) {
        var removed := Remove(key);
        return Ok(true);
      }
      return Ok(false);
    }

    /** The entry set's `add(entry)`: stores the value and answers true exactly when it changes what is stored. */
    method AddEntry(e: Entry<V>) returns (r: Result<bool, Sessions.SessionFailure>)
      modifies session
      ensures r.Ok? <==> old(session.valid) || !strict
      ensures r.Ok? ==> (r.value <==> Env.Lookup(old(session.attributes), e.key) != Some(e.value))
      ensures r.Ok? ==> session.attributes == old(session.attributes)[e.key := e.value]
      ensures r.Err? ==> session.attributes == old(session.attributes)
      ensures session.valid == old(session.valid) && session.sessionId == old(session.sessionId)
      ensures session.maxInactiveInterval == old(session.maxInactiveInterval)
    {
      var current := Get(e.key);
      if current.Err? {
        return Err(current.error);
      }
      var modified := current.value != Some(e.value);
      if modified {
        var outcome := session.SetAttribute(e.key, Some(e.value), strict);
      }
      return Ok(modified);
    }

    /** The entry set's `remove(entry)`: deletes the attribute only when the entry is contained. */
    method RemoveEntry(e: Entry<V>) returns (r: Result<bool, Sessions.SessionFailure>)
      modifies session
      ensures r.Ok? <==> old(session.valid) || !strict
      ensures r.Ok? ==> (r.value <==> Env.Lookup(old(session.attributes), e.key) == Some(e.value))
      ensures r.Ok? && r.value ==> session.attributes == old(session.attributes) - {e.key}
      ensures !(r.Ok? && r.value) ==> session.attributes == old(session.attributes)
      ensures session.valid == old(session.valid) && session.sessionId == old(session.sessionId)
      ensures session.maxInactiveInterval == old(session.maxInactiveInterval)
    {
      var contains := ContainsEntry(e);
      if contains.Err? {
        return Err(contains.error);
      }
      if contains.value {
        var outcome := session.RemoveAttribute(e.key, strict);
      }
      return Ok(contains.value);
    }
  }

  /** Why the entry iterator throws. */
  datatype IteratorFailure =
    | NoSuchElement                               // next() with nothing left
    | NothingToRemove                             // check(lastAttributeName != null)
    | SessionInvalid(cause: Sessions.SessionFailure)

  /** The names of a set in some order, each once (`attributeNames.toList()`). */
  method ListOf(s: set<string>) returns (r: seq<string>)
    ensures forall x :: x in r <==> x in s
    ensures |r| == |s|
  {
    r := [];
    var rest := s;
    while rest != {}
      invariant rest !! (set x | x in r)
      invariant rest + (set x | x in r) == s
      invariant |r| + |rest| == |s|
      decreases rest
    {
      var x :| x in rest;
      SetOfAppend(r, x);
      r := r + [x];
      rest := rest - {x};
    }
  }

  lemma SetOfAppend(r: seq<string>, x: string)
    ensures (set y | y in r + [x]) == (set y | y in r) + {x}
  {
  }

  /** `SessionAttributeEntrySetIterator`: a snapshot of the names still to visit, and the last name returned. */
  class EntryIterator<V(==)> {
    const session: Sessions.MockHttpSession<V>
    const strict: bool
    var remaining: seq<string>
    var lastAttributeName: Option<string>

    /** Creating the iterator lists the session's attribute names, which checks the session. */
    static method Create(session: Sessions.MockHttpSession<V>, strict: bool) returns (r: Result<EntryIterator<V>, IteratorFailure>)
      ensures r.Err? <==> !session.valid && strict
      ensures r.Ok? ==> fresh(r.value) && r.value.session == session && r.value.strict == strict
      ensures r.Ok? ==> r.value.lastAttributeName.None? && |r.value.remaining| == |session.attributes|
      ensures r.Ok? ==> forall n :: n in r.value.remaining <==> n in session.attributes
    {
      var names := session.GetAttributeNames(strict);
      if names.Err? {
        return Err(SessionInvalid(names.error));
      }
      assert names.value == session.attributes.Keys;
      var listed := ListOf(names.value);
      var it := new EntryIterator<V>.Init(session, strict, listed);
      return Ok(it);
    }

    constructor Init(session: Sessions.MockHttpSession<V>, strict: bool, names: seq<string>)
      ensures this.session == session && this.strict == strict
      ensures remaining == names && lastAttributeName.None?
    {
      this.session := session;
      this.strict := strict;
      remaining := names;
      lastAttributeName := None;
    }

    /** `hasNext()`. */
    function HasNext(): bool
      reads this
    {
      |remaining| > 0
    }

    /**
     * `next()`: the next name and its current value (null once the attribute
     * is gone); the name is remembered before the value is read.
     */
    method Next() returns (r: Result<(string, Option<V>), IteratorFailure>)
      modifies this
      ensures old(|remaining|) == 0 ==> r == Err(NoSuchElement) && remaining == old(remaining) && lastAttributeName == old(lastAttributeName)
      ensures old(|remaining|) > 0 ==> remaining == old(remaining[1..]) && lastAttributeName == Some(old(remaining[0]))
      ensures old(|remaining|) > 0 ==> (r.Ok? <==> session.valid || !strict)
      ensures r.Ok? ==> r.value == (old(remaining[0]), Env.Lookup(session.attributes, old(remaining[0])))
    {
      if |remaining| == 0 {
        return Err(NoSuchElement);
      }
      var name := remaining[0];
      remaining := remaining[1..];
      lastAttributeName := Some(name);
      var value := session.GetAttribute(name, strict);
      if value.Err? {
        return Err(SessionInvalid(value.error));
      }
      return Ok((name, value.value));
    }

    /** `remove()`: deletes the attribute `next()` returned last; a second call without `next()` fails. */
    method Remove() returns (r: Outcome<IteratorFailure>)
      modifies this, session
      ensures old(lastAttributeName).None? ==> r == Fail(NothingToRemove) && session.attributes == old(session.attributes)
      ensures old(lastAttributeName).Some? ==> (r.Pass? <==> old(session.valid) || !strict)
      ensures r.Pass? ==> session.attributes == old(session.attributes) - {old(lastAttributeName).value}
                          && lastAttributeName.None?
      ensures r.Fail? ==> session.attributes == old(session.attributes) && lastAttributeName == old(lastAttributeName)
      ensures remaining == old(remaining) && session.valid == old(session.valid)
      ensures session.sessionId == old(session.sessionId) && session.maxInactiveInterval == old(session.maxInactiveInterval)
    {
      if lastAttributeName.None? {
        return Fail(NothingToRemove);
      }
      var removed := session.RemoveAttribute(lastAttributeName.value, strict);
      if removed.Fail? {
        return Fail(SessionInvalid(removed.error));
      }
      lastAttributeName := None;
      return Pass;
    }
  }
}
