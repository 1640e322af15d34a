/**
 * The session lifecycle hub (`CallbackManager`): two ordered lists of handlers, one run after a
 * session is initialised and one when it completes. Each handler call is wrapped in its own
 * `catch (\Exception)`, so an exception is logged and the next handler still runs; a PHP
 * `Error` is not an `Exception` and leaves the loop. Handlers are named by their class, and
 * what a handler does when called is the parameter `run`.
 */
module Callbacks {
  /** What one handler call does, as seen by the loop. */
  datatype HandlerOutcome = Returned | Threw(message: string) | Raised

  /**
   * The effect of one `invoke*` call: the handlers called, in order; the messages of the
   * exceptions caught and logged; and whether an `Error` escaped from the last handler called.
   */
  datatype Invocation = Invocation(called: seq<string>, logged: seq<string>, aborted: bool)

  /** The loop of `invoke*` over `handlers`, stated over the list's prefixes. */
  function Invoke(handlers: seq<string>, run: string -> HandlerOutcome): (inv: Invocation)
    ensures |inv.called| <= |handlers| && inv.called == handlers[..|inv.called|]
    ensures !inv.aborted ==> inv.called == handlers
    ensures inv.aborted ==> |inv.called| > 0 && run(inv.called[|inv.called| - 1]).Raised?
  {
    if handlers == [] then Invocation([], [], false)
    else
      var before := Invoke(handlers[..|handlers| - 1], run);
      if before.aborted then
        assert handlers[..|handlers| - 1][..|before.called|] == handlers[..|before.called|];
        before
      else
        var h := handlers[|handlers| - 1];
        assert before.called + [h] == handlers;
        match run(h)
        case Returned => Invocation(before.called + [h], before.logged, false)
        case Threw(message) => Invocation(before.called + [h], before.logged + [message], false)
        case Raised => Invocation(before.called + [h], before.logged, true)
  }

  /** Every handler before the last one called (and that one too, unless the loop aborted) returned normally or threw an exception. */
  lemma {:induction false} InvokeStopsOnlyAtError(handlers: seq<string>, run: string -> HandlerOutcome, i: nat)
    requires i + 1 < |Invoke(handlers, run).called| || (i < |Invoke(handlers, run).called| && !Invoke(handlers, run).aborted)
    ensures !run(handlers[i]).Raised?
  {
    var front := handlers[..|handlers| - 1];
    var before := Invoke(front, run);
    if i < |front| {
      assert front[i] == handlers[i];
      InvokeStopsOnlyAtError(front, run, i);
    }
  }

  /** When no handler raises an `Error`, every handler is called exactly once, in registration order. */
  lemma {:induction false} InvokeCallsAll(handlers: seq<string>, run: string -> HandlerOutcome)
    requires forall i :: 0 <= i < |handlers| ==> !run(handlers[i]).Raised?
    ensures Invoke(handlers, run).called == handlers && !Invoke(handlers, run).aborted
  {
    if handlers != [] {
      var front := handlers[..|handlers| - 1];
      assert forall i :: 0 <= i < |front| ==> front[i] == handlers[i];
      InvokeCallsAll(front, run);
    }
  }

  /** The logged messages are those of the called handlers that threw, in order. */
  function ThrownMessages(called: seq<string>, run: string -> HandlerOutcome): seq<string>
  {
    if called == [] then []
    else
      var last := run(called[|called| - 1]);
      ThrownMessages(called[..|called| - 1], run) + (if last.Threw? then [last.message] else [])
  }

  /** Every exception caught is logged, and only those: a handler's exception never ends the loop. */
  lemma {:induction false} InvokeLogsEveryException(handlers: seq<string>, run: string -> HandlerOutcome)
    ensures Invoke(handlers, run).logged == ThrownMessages(Invoke(handlers, run).called, run)
  {
    if handlers != [] {
      var before := Invoke(handlers[..|handlers| - 1], run);
      InvokeLogsEveryException(handlers[..|handlers| - 1], run);
      if !before.aborted {
        var called := Invoke(handlers, run).called;
        assert called[..|called| - 1] == before.called;
      }
    }
  }

  /** The handler registry. */
  class CallbackManager {
    var sessionInitializers: seq<string>
    var sessionCompleteHandlers: seq<string>

    /** The constructor takes the two lists as configured. */
    constructor (initializers: seq<string>, completeHandlers: seq<string>)
      ensures sessionInitializers == initializers && sessionCompleteHandlers == completeHandlers
    {
      sessionInitializers := initializers;
      sessionCompleteHandlers := completeHandlers;
    }

    /** `registerSessionInitializer`: appended at the end; the other list is untouched. */
    method RegisterSessionInitializer(initializer: string)
      modifies this
      ensures sessionInitializers == old(sessionInitializers) + [initializer]
      ensures sessionCompleteHandlers == old(sessionCompleteHandlers)
      ensures InitializerCount() == old(InitializerCount()) + 1
    {
      sessionInitializers := sessionInitializers + [initializer];
    }

    /** `registerSessionCompleteHandler`: appended at the end; the other list is untouched. */
    method RegisterSessionCompleteHandler(handler: string)
      modifies this
      ensures sessionCompleteHandlers == old(sessionCompleteHandlers) + [handler]
      ensures sessionInitializers == old(sessionInitializers)
      ensures CompleteHandlerCount() == old(CompleteHandlerCount()) + 1
    {
      sessionCompleteHandlers := sessionCompleteHandlers + [handler];
    }

    /** The `foreach` with a `try` around each call. */
    static method InvokeEach(handlers: seq<string>, run: string -> HandlerOutcome) returns (inv: Invocation)
      ensures inv == Invoke(handlers, run)
    {
      if |handlers| == 0 {
        return Invocation([], [], false);
      }
      inv := Invocation([], [], false);
      var i := 0;
      while i < |handlers|
        invariant 0 <= i <= |handlers|
        invariant inv == Invoke(handlers[..i], run)
        invariant !inv.aborted
      {
        assert handlers[..i + 1][..i] == handlers[..i];
        var handler := handlers[i];
        match run(handler) {
          case Returned =>
            inv := inv.(called := inv.called + [handler]);
          case Threw(message) =>
            inv := inv.(called := inv.called + [handler], logged := inv.logged + [message]);
          case Raised =>
            inv := inv.(called := inv.called + [handler], aborted := true);
            InvokeAbortExtends(handlers, run, i + 1);
            return;
        }
        i := i + 1;
      }
      assert handlers[..i] == handlers;
    }

    /** `invokeSessionInitializers` */
    method InvokeSessionInitializers(run: string -> HandlerOutcome) returns (inv: Invocation)
      ensures inv == Invoke(sessionInitializers, run)
    {
      inv := InvokeEach(sessionInitializers, run);
    }

    /** `invokeSessionComplete` */
    method InvokeSessionComplete(run: string -> HandlerOutcome) returns (inv: Invocation)
      ensures inv == Invoke(sessionCompleteHandlers, run)
    {
      inv := InvokeEach(sessionCompleteHandlers, run);
    }

    /** `hasSessionInitializers` */
    predicate HasSessionInitializers()
      reads this
    {
      sessionInitializers != []
    }

    /** `hasSessionCompleteHandlers` */
    predicate HasSessionCompleteHandlers()
      reads this
    {
      sessionCompleteHandlers != []
    }

    /** `getInitializerCount` */
    function InitializerCount(): nat
      reads this
    {
      |sessionInitializers|
    }

    /** `getCompleteHandlerCount` */
    function CompleteHandlerCount(): nat
      reads this
    {
      |sessionCompleteHandlers|
    }
  }

  /** Once a prefix of the list ends in an `Error`, the rest of the list is never called. */
  lemma {:induction false} InvokeAbortExtends(handlers: seq<string>, run: string -> HandlerOutcome, n: nat)
    requires n <= |handlers| && Invoke(handlers[..n], run).aborted
    ensures Invoke(handlers, run) == Invoke(handlers[..n], run)
    decreases |handlers| - n
  {
    if n < |handlers| {
      var next := handlers[..n + 1];
      assert next[..n] == handlers[..n];
      assert Invoke(next, run) == Invoke(handlers[..n], run);
      InvokeAbortExtends(handlers, run, n + 1);
    } else {
      assert handlers[..n] == handlers;
    }
  }

  /** `has*` holds exactly when the matching count is positive, and an empty list calls nothing. */
  lemma HasMatchesCount(m: CallbackManager, run: string -> HandlerOutcome)
    ensures m.HasSessionInitializers() <==> m.InitializerCount() > 0
    ensures m.HasSessionCompleteHandlers() <==> m.CompleteHandlerCount() > 0
    ensures !m.HasSessionInitializers() ==> Invoke(m.sessionInitializers, run) == Invocation([], [], false)
    ensures !m.HasSessionCompleteHandlers() ==> Invoke(m.sessionCompleteHandlers, run) == Invocation([], [], false)
  {
  }
}
