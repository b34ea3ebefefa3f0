/** Shared vocabulary: option and result types, the Ruby values a refresher
    can return, configured callables, and the errors the caches raise. */
module Base {

  datatype Option<+T> = None | Some(value: T)

  datatype Result<+T, +E> = Ok(value: T) | Err(error: E)

  /** A value returned by a refresher. `Nil` and `False` are the two values Ruby
      treats as false in a condition; a hash is keyed by symbol names. */
  datatype Value =
    | Nil
    | False
    | True
    | Num(n: int)
    | Str(s: string)
    | Hash(entries: map<string, Value>)

  /** Ruby truthiness: everything except nil and false. */
  predicate Truthy(v: Value) {
    !(v.Nil? || v.False?)
  }

  /** A configured (non-nil, non-false) object, such as a refresher or an error
      handler; `callable` records whether it responds to `call`. */
  datatype Proc = Proc(callable: bool)

  /** `x && x.respond_to?(:call)` for an optional setting. */
  predicate Invocable(p: Option<Proc>) {
    p.Some? && p.value.callable
  }

  /** The state of one timer task: created but never executed, executing on
      its interval, or shut down. */
  datatype TaskState = Pending | Running | Shutdown

  /** Errors raised by `start`. */
  datatype StartError =
    | MissingRefresher   // refresher unset or not callable
    | InvalidInterval    // refresh_interval <= 0
    | ForkMisuse         // started again from a different process
    | ObserverArity      // the observer constructor was called with the wrong number of arguments

  /** Errors raised by reading a cache. */
  datatype ReadError =
    | NotStarted
    | NotYetLoaded
    | RefresherNotCallable
    | RefresherRaised(error: string)
    | NotIndexable

  /** `value[k]`: a hash answers nil for a missing key; any other value is
      treated as not indexable. */
  function Index(v: Value, k: string): (r: Result<Value, ReadError>)
    ensures r.Ok? <==> v.Hash?
    // a present key answers its entry, an absent one nil
    ensures v.Hash? && k in v.entries ==> r == Ok(v.entries[k])
    ensures v.Hash? && k !in v.entries ==> r == Ok(Nil)
  {
    match v
    case Hash(m) => if k in m then Ok(m[k]) else Ok(Nil)
    case _ => Err(NotIndexable)
  }
}
