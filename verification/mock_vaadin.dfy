/**
 * The mocked Vaadin environment of one test thread (MockVaadin.kt): the
 * current service, session, UI, request and response, the last navigation,
 * the "currently closing session" flag, and the UI access queue whose
 * failures `runUIQueue` collects.
 */
module MockVaadin {
  import opened Wrappers

  /** A throwable raised by a command queued with `UI.access`. */
  datatype Throwable =
    | ExecutionException(message: string)
    | OtherThrowable(message: string)

  /** A session's error handler. */
  datatype Handler =
    | NoHandler                // null
    | DefaultErrorHandler
    | CustomHandler(name: string)
    | CollectingHandler        // the temporary handler `runUIQueue` installs

  /** A command queued with `UI.access`: it either completes or throws. */
  datatype Task = Completes | Throws(error: Throwable)

  /**
   * A Vaadin session: its id, its lock (None for a null lock, else whether
   * it is held), its error handler, the queued commands and the failures its
   * own handler has received.
   */
  datatype Session = Session(id: nat, lock: Option<bool>, errorHandler: Handler, pending: seq<Task>, handled: seq<Throwable>)

  /** A UI: its id, the id of the session it is attached to, and its active location. */
  datatype UI = UI(id: nat, session: Option<nat>, location: string)

  /** What `runUIQueue` throws: the first collected error, the others attached as suppressed. */
  datatype RunFailure = RunFailure(first: Throwable, suppressed: seq<Throwable>)

  /** Why setting up a session or UI fails. */
  datatype SetupError =
    | NoService              // checkNotNull(VaadinService.getCurrent())
    | NoRequest              // checkNotNull(VaadinRequest.getCurrent())
    | NullLock               // "... has null lock"
    | LockNotLocked          // "... lock must be locked!"
    | UIAlreadyAttached      // "uiFactory produced UI ... which is already attached to a Session"
    | QueueFailed(failure: RunFailure)

  /** What the environment reports to the listeners it fires. */
  datatype Event =
    | ServiceDestroyed
    | SessionDestroyed(session: nat)
    | SessionInit(session: nat)
    | UIInit(ui: nat)
    | UIDetached(ui: nat)
    | Navigated(ui: nat, location: string)

  /** Whether `runUIQueue` installs its own collecting handler. */
  predicate ReplacesHandler(h: Handler, propagateExceptionToHandler: bool)
  {
    h == NoHandler || h == DefaultErrorHandler || !propagateExceptionToHandler
  }

  /** A throwable as the collecting handler records it: wrapped in an ExecutionException unless it is one. */
  function Wrap(t: Throwable): (w: Throwable)
    ensures w.ExecutionException? && w.message == t.message
  {
    if t.ExecutionException? then t else ExecutionException(t.message)
  }

  /** The throwables of the failing commands, in queue order. */
  function Failures(tasks: seq<Task>): (fs: seq<Throwable>)
    ensures |fs| <= |tasks|
  {
    if |tasks| == 0 then []
    else if tasks[|tasks| - 1].Throws? then Failures(tasks[..|tasks| - 1]) + [tasks[|tasks| - 1].error]
    else Failures(tasks[..|tasks| - 1])
  }

  /** Each throwable wrapped. */
  function WrapAll(ts: seq<Throwable>): (ws: seq<Throwable>)
    ensures |ws| == |ts|
    ensures forall i :: 0 <= i < |ts| ==> ws[i] == Wrap(ts[i])
  {
    seq(|ts|, i requires 0 <= i < |ts| => Wrap(ts[i]))
  }

  /** A queue that fails nowhere yields no failures. */
  lemma {:induction false} NoFailures(tasks: seq<Task>)
    requires forall i :: 0 <= i < |tasks| ==> tasks[i] == Completes
    ensures Failures(tasks) == []
  {
    if |tasks| > 0 {
      NoFailures(tasks[..|tasks| - 1]);
    }
  }

  /** A queue's failures are those of its failing commands. */
  lemma {:induction false} FailuresAreThrown(tasks: seq<Task>, t: Throwable)
    ensures t in Failures(tasks) <==> Throws(t) in tasks
  {
    if |tasks| > 0 {
      var init := tasks[..|tasks| - 1];
      FailuresAreThrown(init, t);
      assert tasks == init + [tasks[|tasks| - 1]];
    }
  }

  /**
   * `runUIQueue(propagateExceptionToHandler, session)`: runs the queued
   * commands. Unless the session has a custom handler that exceptions are to
   * be propagated to, their failures are collected (wrapped) and the first
   * is thrown with the others suppressed; either way the old handler is
   * restored and the lock is held again afterwards.
   */
  method RunUIQueue(propagateExceptionToHandler: bool, session: Session) returns (after: Session, r: Outcome<RunFailure>)
    ensures after == session.(pending := [], handled := after.handled)
    ensures var collected := WrapAll(Failures(session.pending));
      if ReplacesHandler(session.errorHandler, propagateExceptionToHandler) then
        && after.handled == session.handled
        && r == (if |collected| == 0 then Pass else Fail(RunFailure(collected[0], collected[1..])))
      else
        after.handled == session.handled + Failures(session.pending) && r == Pass
  {
    var errors: seq<Throwable> := [];
    var oldErrorHandler := session.errorHandler;
    var current := session;
    var collecting := ReplacesHandler(oldErrorHandler, propagateExceptionToHandler);
    if collecting {
      current := current.(errorHandler := CollectingHandler);
    }
    // unlock(): the queued commands run, their failures going to the handler
    var i := 0;
    while i < |session.pending|
      invariant 0 <= i <= |session.pending|
      invariant current == session.(errorHandler := current.errorHandler, handled := current.handled)
      invariant ReplacesHandler(oldErrorHandler, propagateExceptionToHandler) ==>
        current.errorHandler == CollectingHandler && current.handled == session.handled
        && errors == WrapAll(Failures(session.pending[..i]))
      invariant !ReplacesHandler(oldErrorHandler, propagateExceptionToHandler) ==>
        current.errorHandler == oldErrorHandler && errors == []
        && current.handled == session.handled + Failures(session.pending[..i])
    {
      assert session.pending[..i + 1][..i] == session.pending[..i];
      var task := session.pending[i];
      if task.Throws? {
        if collecting {
          errors := errors + [Wrap(task.error)];
        } else {
          current := current.(handled := current.handled + [task.error]);
        }
      }
      i := i + 1;
    }
    assert session.pending[..i] == session.pending;
    // finally: the old handler is restored
    after := current.(pending := [], errorHandler := oldErrorHandler);
    if |errors| > 0 {
      return after, Fail(RunFailure(errors[0], errors[1..]));
    }
    return after, Pass;
  }

  /** Every failure reaches the test or the custom handler: none is lost. */
  lemma RunUIQueueLosesNothing(propagateExceptionToHandler: bool, session: Session, t: Throwable)
    requires Throws(t) in session.pending
    ensures ReplacesHandler(session.errorHandler, propagateExceptionToHandler) ==>
      Wrap(t) in WrapAll(Failures(session.pending))
    ensures !ReplacesHandler(session.errorHandler, propagateExceptionToHandler) ==>
      t in session.handled + Failures(session.pending)
  {
    FailuresAreThrown(session.pending, t);
    var fs := Failures(session.pending);
    var k :| 0 <= k < |fs| && fs[k] == t;
    assert WrapAll(fs)[k] == Wrap(t);
  }

  /** The mocked environment of the current thread. */
  class Environment {
    var service: bool                 // VaadinService.getCurrent() != null
    var session: Option<Session>      // VaadinSession.getCurrent(), held strongly
    var ui: Option<UI>                // UI.getCurrent(), held strongly
    var request: bool                 // VaadinRequest.getCurrent() != null
    var response: bool                // VaadinResponse.getCurrent() != null
    var lastNavigation: Option<string>
    var closingSession: bool          // currentlyClosingSession, initially false
    var nextId: nat                   // the source of produced session ids
    var events: seq<Event>            // the listeners fired, in order

    /** A thread on which nothing has been mocked yet. */
    constructor()
      ensures !service && session.None? && ui.None? && !request && !response
      ensures lastNavigation.None? && !closingSession && nextId == 0 && events == []
    {
      service := false;
      session := None;
      ui := None;
      request := false;
      response := false;
      lastNavigation := None;
      closingSession := false;
      nextId := 0;
      events := [];
    }

    /** Nothing current is left. */
    predicate TornDown()
      reads this
    {
      !service && session.None? && ui.None? && !request && !response && lastNavigation.None?
    }

    /**
     * `closeCurrentUI(fireUIDetach)`: without a current UI, nothing happens;
     * otherwise its location is remembered, the detach event fired if asked
     * for, and the UI is no longer current.
     */
    method CloseCurrentUI(fireUIDetach: bool)
      modifies this
      ensures old(ui).None? ==> ui == old(ui) && lastNavigation == old(lastNavigation) && events == old(events)
      ensures old(ui).Some? ==> (ui.None? && lastNavigation == Some(old(ui).value.location)
        && events == old(events) + (if fireUIDetach then [UIDetached(old(ui).value.id)] else []))
      ensures service == old(service) && session == old(session) && request == old(request)
        && response == old(response) && closingSession == old(closingSession) && nextId == old(nextId)
    {
      if ui.None? {
        return;
      }
      lastNavigation := Some(ui.value.location);
      if fireUIDetach {
        events := events + [UIDetached(ui.value.id)];
      }
      ui := None;
    }

    /**
     * `closeCurrentSession()` as written: destroys the current session, then
     * runs its queue with the closing flag raised. The flag is lowered only
     * when the queue run completes; a failure leaves it raised.
     */
    method CloseCurrentSessionAsWritten() returns (r: Outcome<RunFailure>)
      modifies this
      ensures old(session).None? ==> r == Pass && closingSession == old(closingSession) && events == old(events)
      ensures old(session).Some? ==> events == old(events) + [SessionDestroyed(old(session).value.id)]
      ensures old(session).Some? ==> closingSession == r.Fail?
      ensures old(session).Some? ==> (r.Fail? <==> |Failures(old(session).value.pending)| > 0)
      ensures session.None?
      ensures service == old(service) && ui == old(ui) && request == old(request) && response == old(response)
        && lastNavigation == old(lastNavigation) && nextId == old(nextId)
    {
      r := Pass;
      if session.Some? {
        var s := session.value;
        events := events + [SessionDestroyed(s.id)];
        session := None;
        closingSession := true;
        var _, run := RunUIQueue(false, s);
        if run.Fail? {
          return run;
        }
        closingSession := false;
      }
    }

    /**
     * `closeCurrentSession()` with the flag lowered however the queue run
     * ends, as a `try`/`finally` would: the flag is never left raised.
     */
    method CloseCurrentSession() returns (r: Outcome<RunFailure>)
      modifies this
      ensures old(session).None? ==> r == Pass && closingSession == old(closingSession) && events == old(events)
      ensures old(session).Some? ==> events == old(events) + [SessionDestroyed(old(session).value.id)]
      ensures old(session).Some? ==> (r.Fail? <==> |Failures(old(session).value.pending)| > 0)
      ensures old(session).Some? ==> !closingSession
      ensures session.None?
      ensures service == old(service) && ui == old(ui) && request == old(request) && response == old(response)
        && lastNavigation == old(lastNavigation) && nextId == old(nextId)
    {
      r := Pass;
      if session.Some? {
        var s := session.value;
        events := events + [SessionDestroyed(s.id)];
        session := None;
        closingSession := true;
        var _, run := RunUIQueue(false, s);
        closingSession := false;
        r := run;
      }
    }

    /**
     * `clearVaadinInstances(fireUIDetach)`: closes the UI and the session (as
     * written), then forgets the request and response. A failing queue run
     * ends it early, leaving the request and response in place and the
     * closing flag raised.
     */
    method ClearVaadinInstances(fireUIDetach: bool) returns (r: Outcome<RunFailure>)
      modifies this
      ensures ui.None? && session.None?
      ensures old(session).Some? ==> closingSession == r.Fail?
      ensures old(session).Some? ==> (r.Fail? <==> |Failures(old(session).value.pending)| > 0)
      ensures old(session).None? ==> closingSession == old(closingSession)
      ensures r.Pass? ==> !request && !response
      ensures r.Fail? ==> request == old(request) && response == old(response)
      ensures old(session).None? ==> r == Pass
      ensures old(ui).Some? ==> lastNavigation == Some(old(ui).value.location)
      ensures old(ui).None? ==> lastNavigation == old(lastNavigation)
      ensures service == old(service) && nextId == old(nextId)
      ensures old(ui).None? && old(session).None? ==> events == old(events)
    {
      CloseCurrentUI(fireUIDetach);
      r := CloseCurrentSessionAsWritten();
      if r.Fail? {
        return;
      }
      request := false;
      response := false;
    }

    /**
     * `tearDown()`: clears the UI, session, request and response, destroys
     * the service and forgets the last navigation. On a thread already torn
     * down it changes nothing, so it is safe to call repeatedly.
     */
    method TearDown() returns (r: Outcome<RunFailure>)
      modifies this
      ensures r.Pass? ==> TornDown()
      ensures old(session).None? ==> r == Pass
      ensures old(TornDown()) ==> r == Pass && TornDown() && events == old(events)
      ensures session.None? && ui.None?
      ensures old(session).Some? ==> closingSession == r.Fail?
      ensures old(session).Some? ==> (r.Fail? <==> |Failures(old(session).value.pending)| > 0)
      ensures old(session).None? ==> closingSession == old(closingSession)
      ensures nextId == old(nextId)
    {
      r := ClearVaadinInstances(false);
      if r.Fail? {
        return;
      }
      if service {
        events := events + [ServiceDestroyed];
        service := false;
      }
      lastNavigation := None;
    }

    /**
     * `createUI(uiFactory, session)`: the factory's UI must not be attached
     * to a session yet. It is attached, made current and initialised, then
     * navigated to the remembered location (which is then forgotten) or,
     * failing that, to the root route when one exists.
     */
    method CreateUI(produced: UI, sessionId: nat, rootRouteExists: bool) returns (r: Outcome<SetupError>)
      modifies this
      ensures !old(request) ==> r == Fail(NoRequest) && ui == old(ui) && events == old(events)
      ensures old(request) && produced.session.Some? ==> r == Fail(UIAlreadyAttached) && ui == old(ui) && events == old(events)
      ensures old(request) && produced.session.None? ==> (r == Pass && ui.Some?
        && ui.value.id == produced.id && ui.value.session == Some(sessionId))
      ensures |events| >= |old(events)| && events[..|old(events)|] == old(events)
      ensures old(request) && produced.session.None? && old(lastNavigation).Some? ==>
        ui.value.location == old(lastNavigation).value && lastNavigation.None?
        && events == old(events) + [UIInit(produced.id), Navigated(produced.id, old(lastNavigation).value)]
      ensures old(request) && produced.session.None? && old(lastNavigation).None? ==>
        lastNavigation.None? && ui.value.location == (if rootRouteExists then "" else produced.location)
        && events == old(events) + [UIInit(produced.id)] + (if rootRouteExists then [Navigated(produced.id, "")] else [])
      ensures r.Fail? ==> lastNavigation == old(lastNavigation)
      ensures service == old(service) && session == old(session) && request == old(request)
        && response == old(response) && closingSession == old(closingSession) && nextId == old(nextId)
    {
      if !request {
        return Fail(NoRequest);
      }
      if produced.session.Some? {
        return Fail(UIAlreadyAttached);
      }
      var created := produced.(session := Some(sessionId));
      ui := Some(created);
      events := events + [UIInit(created.id)];
      if lastNavigation.Some? {
        var target := lastNavigation.value;
        ui := Some(created.(location := target));
        events := events + [Navigated(created.id, target)];
        lastNavigation := None;
      } else if rootRouteExists {
        ui := Some(created.(location := ""));
        events := events + [Navigated(created.id, "")];
      }
      return Pass;
    }

    /**
     * `createSession(ctx, uiFactory)`: needs a current service; makes a
     * request current, creates a session whose lock must be present and
     * held, makes it current, makes a response current, fires the session
     * init listeners and creates the UI.
     */
    method CreateSession(lock: Option<bool>, produced: UI, rootRouteExists: bool) returns (r: Outcome<SetupError>)
      modifies this
      ensures !old(service) ==> r == Fail(NoService) && session == old(session) && request == old(request)
      ensures old(service) && lock != Some(true) ==> (request && session == old(session) && nextId == old(nextId)
        && r == Fail(if lock.None? then NullLock else LockNotLocked))
      ensures old(service) && lock == Some(true) ==> (request && response && nextId == old(nextId) + 1
        && session == Some(Session(old(nextId), lock, NoHandler, [], []))
        && (r.Pass? <==> produced.session.None?)
        && (r.Pass? ==> ui.Some? && ui.value.id == produced.id && ui.value.session == Some(old(nextId)))
        && |events| > |old(events)| && events[..|old(events)| + 1] == old(events) + [SessionInit(old(nextId))])
      ensures service == old(service) && closingSession == old(closingSession)
    {
      if !service {
        return Fail(NoService);
      }
      request := true;
      if lock != Some(true) {
        return Fail(if lock.None? then NullLock else LockNotLocked);
      }
      var id := nextId;
      nextId := nextId + 1;
      session := Some(Session(id, lock, NoHandler, [], []));
      response := true;
      events := events + [SessionInit(id)];
      ghost var afterInit := events;
      r := CreateUI(produced, id, rootRouteExists);
      assert events[..|afterInit|] == afterInit;
    }

    /**
     * `setup(uiFactory, servlet)`: makes the service current and creates a
     * produced session and UI.
     */
    method Setup(lock: Option<bool>, produced: UI, rootRouteExists: bool) returns (r: Outcome<SetupError>)
      modifies this
      ensures service
      ensures lock == Some(true) && produced.session.None? ==> (r == Pass
        && session.Some? && session.value.id == old(nextId) && session.value.lock == Some(true)
        && ui.Some? && ui.value.session == Some(old(nextId)) && request && response)
      ensures lock != Some(true) ==> r.Fail?
      ensures closingSession == old(closingSession)
    {
      service := true;
      r := CreateSession(lock, produced, rootRouteExists);
    }

    /**
     * `afterSessionClose(session, uiFactory)` as written: unless a session is
     * being closed on this thread, clears everything (firing the UI detach)
     * and creates a produced session and UI, as a browser reload after logout
     * would.
     */
    method AfterSessionClose(lock: Option<bool>, produced: UI, rootRouteExists: bool) returns (r: Outcome<SetupError>)
      modifies this
      ensures old(closingSession) ==> (r == Pass && session == old(session) && ui == old(ui)
        && events == old(events) && nextId == old(nextId))
      ensures !old(closingSession) && old(session).None? && old(service) && lock == Some(true) && produced.session.None? ==>
        r == Pass && session.Some? && session.value.id == old(nextId) && ui.Some? && ui.value.session == Some(old(nextId))
      ensures !old(closingSession) && old(session).Some? && |Failures(old(session).value.pending)| > 0 ==>
        r.Fail? && r.error.QueueFailed? && closingSession && session.None?
      ensures !old(closingSession) ==> (closingSession <==> old(session).Some? && |Failures(old(session).value.pending)| > 0)
      ensures old(closingSession) ==> closingSession
    {
      if closingSession {
        return Pass;
      }
      var cleared := ClearVaadinInstances(true);
      if cleared.Fail? {
        return Fail(QueueFailed(cleared.error));
      }
      r := CreateSession(lock, produced, rootRouteExists);
    }
  }

  /**
   * As written, a failing command in the queue of a session being closed
   * makes `tearDown` fail and leaves the closing flag raised, so a later
   * session close on the same thread is no longer followed by a produced
   * session.
   */
  method StuckClosingFlag() returns (env: Environment, torn: Outcome<RunFailure>, after: Outcome<SetupError>)
    ensures torn.Fail? && env.closingSession
    ensures after == Pass && env.session.None?
  {
    env := new Environment();
    env.service := true;
    env.session := Some(Session(7, Some(true), NoHandler, [Throws(OtherThrowable("boom"))], []));
    assert Failures(env.session.value.pending) == [OtherThrowable("boom")] by {
      assert [Throws(OtherThrowable("boom"))][..0] == [];
    }
    torn := env.TearDown();
    after := env.AfterSessionClose(Some(true), UI(1, None, ""), true);
  }

  /**
   * With the flag lowered in all cases, the same failure leaves the flag
   * down, and the next session close creates a produced session.
   */
  method ClosingFlagRestored() returns (env: Environment)
    ensures !env.closingSession
    ensures env.session.Some?
  {
    env := new Environment();
    env.service := true;
    env.session := Some(Session(7, Some(true), NoHandler, [Throws(OtherThrowable("boom"))], []));
    var closed := env.CloseCurrentSession();
    var r := env.AfterSessionClose(Some(true), UI(1, None, ""), true);
  }
}
