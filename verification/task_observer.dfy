/** Routing of refresh faults reported by a timer task. The observer is built
    once, when a cache starts, and resolves its handler at that moment. */
module TaskObserver {
  import opened Base

  /** What a failed execution reports: the error the refresher raised, or the
      timer's own timeout error. */
  datatype Fault = Raised(error: string) | TimedOut

  /** The resolved handler (if any) and the name of the observed cache (none
      for the module-level cache). */
  datatype Observer = Observer(handler: Option<Proc>, cacheName: Option<string>)

  /** What one notification does: invoke the handler with the fault, or write
      one of the error logs. */
  datatype Effect =
    | CallHandler(fault: Fault)
    | LogHandlerErrored(cacheName: Option<string>)
    | LogNotCallable
    | LogFailedWithError(cacheName: Option<string>, fault: Fault)
    | LogTimedOut(cacheName: Option<string>)
    | HandlerExceptionEscapes

  /** How an invoked error handler behaves: it returns, it raises a
      `StandardError`, which the bare `rescue` catches, or it raises any other
      exception (`NotImplementedError`, `SystemExit`, ...), which passes
      through `rescue` and leaves `update`. */
  datatype Reaction = Returns | RaisesStandardError | RaisesOther

  /** Handler resolution: the per-cache handler when one is set, otherwise the
      global one as it is at this moment. */
  function NewObserver(perCache: Option<Proc>, global: Option<Proc>, name: Option<string>): (o: Observer)
    ensures o.cacheName == name
    ensures o.handler.Some? <==> perCache.Some? || global.Some?
    ensures perCache.Some? ==> o.handler == perCache
    ensures perCache.None? ==> o.handler == global
  {
    Observer(if perCache.Some? then perCache else global, name)
  }

  /** The effect lists of the six branches of the routing tree: handler
      invoked, handler invoked and its error caught, handler invoked and its
      exception escaping, handler not callable, no handler and a timeout, no
      handler and any other fault. */
  function Branches(name: Option<string>, f: Fault): set<seq<Effect>> {
    { [CallHandler(f)],
      [CallHandler(f), LogHandlerErrored(name)],
      [CallHandler(f), HandlerExceptionEscapes],
      [LogNotCallable, LogFailedWithError(name, f)],
      [LogTimedOut(name)],
      [LogFailedWithError(name, f)] }
  }

  /** Number of handler invocations in a list of effects. */
  function HandlerCalls(r: seq<Effect>): nat {
    if r == [] then 0
    else (if r[0].CallHandler? then 1 else 0) + HandlerCalls(r[1..])
  }

  /** The effects of one notification `update(time, value, boom)`; when the
      handler is invoked, `reaction` says how it behaved. A `StandardError`
      from the handler is caught and logged; any other exception escapes. */
  function Update(o: Observer, boom: Option<Fault>, reaction: Reaction): (r: seq<Effect>)
    // a notification without a fault does nothing; a fault always does something
    ensures boom.None? <==> r == []
    // a fault takes exactly one branch of the routing tree
    ensures boom.Some? ==> r in Branches(o.cacheName, boom.value)
    // a callable handler is invoked exactly once, first, with the fault itself
    ensures HandlerCalls(r) == (if boom.Some? && Invocable(o.handler) then 1 else 0)
    ensures boom.Some? && Invocable(o.handler) ==> r[0] == CallHandler(boom.value)
    ensures forall i :: 0 <= i < |r| && r[i].CallHandler? ==> boom == Some(r[i].fault)
    // a StandardError from the handler is logged and goes no further ...
    ensures LogHandlerErrored(o.cacheName) in r <==>
      boom.Some? && Invocable(o.handler) && reaction == RaisesStandardError
    // ... while any other exception from it leaves the observer
    ensures HandlerExceptionEscapes in r <==> boom.Some? && Invocable(o.handler) && reaction == RaisesOther
    // a handler that is set but not callable: "not callable", then "failed with error", even for timeouts
    ensures LogNotCallable in r <==> boom.Some? && o.handler.Some? && !o.handler.value.callable
    ensures boom.Some? && LogNotCallable in r ==> r == [LogNotCallable, LogFailedWithError(o.cacheName, boom.value)]
    // without a handler: timeouts log "timed out", every other fault "failed with error"
    ensures LogTimedOut(o.cacheName) in r <==> boom == Some(TimedOut) && o.handler.None?
    ensures (exists e :: e in r && e.LogFailedWithError?)
            <==> || (boom.Some? && o.handler.Some? && !o.handler.value.callable)
                 || (boom.Some? && boom.value.Raised? && o.handler.None?)
  {
    match boom
    case None => []
    case Some(f) =>
      match o.handler
      case Some(h) =>
        if h.callable then
          match reaction
          case Returns => [CallHandler(f)]
          case RaisesStandardError =>
            var r := [CallHandler(f), LogHandlerErrored(o.cacheName)];
            assert r[1..] == [LogHandlerErrored(o.cacheName)];
            assert HandlerCalls(r[1..]) == 0 by {
              assert r[1..][1..] == [];
            }
            r
          case RaisesOther =>
            var r := [CallHandler(f), HandlerExceptionEscapes];
            assert r[1..] == [HandlerExceptionEscapes];
            assert HandlerCalls(r[1..]) == 0 by {
              assert r[1..][1..] == [];
            }
            r
        else
          [LogNotCallable, LogFailedWithError(o.cacheName, f)]
      case None =>
        if f.TimedOut? then [LogTimedOut(o.cacheName)]
        else [LogFailedWithError(o.cacheName, f)]
  }
}
