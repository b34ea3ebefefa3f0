/** Properties of a cache over sequences of events: starting, stopping,
    ticks of the timer and reads. */
module CacheLifecycle {
  import opened Base
  import opened TaskObserver
  import opened Tasks
  import opened Cache

  /** Everything that can happen to one cache. A `StartEv` carries the global
      error handler and the random sample of that moment; a `TickEv` one
      execution of the timer task; a `LateEv` the result of an execution
      that outlived its task; a `ReadEv` and a `LookupEv` the outcome of the
      synchronous load the read would perform. */
  datatype Event =
    | SetRefresherEv(refresher: Option<Proc>)
    | SetIntervalEv(interval: real)
    | SetHandlerEv(handler: Option<Proc>)
    | StartEv(globalHandler: Option<Proc>, u: real)
    | StopEv
    | TickEv(outcome: Outcome, reaction: Reaction)
    | LateEv(result: Value)
    | ReadEv(load: CallResult)
    | LookupEv(key: string, load: CallResult)

  /** A start event's sample lies in [0, 1), as `rand` guarantees. */
  predicate Admissible(e: Event) {
    e.StartEv? ==> 0.0 <= e.u < 1.0
  }

  predicate AllAdmissible(es: seq<Event>) {
    forall i :: 0 <= i < |es| ==> Admissible(es[i])
  }

  /** The cache after one event. An operation that raises before changing
      anything leaves it as it was; a lookup whose indexing raises keeps what
      its read loaded. */
  function Step(c: CacheState, e: Event): (r: CacheState)
    requires Admissible(e)
    ensures Valid(c) ==> Valid(r)
  {
    match e
    case SetRefresherEv(p) => SetRefresher(c, p)
    case SetIntervalEv(i) => SetRefreshInterval(c, i)
    case SetHandlerEv(h) => SetErrorHandler(c, h)
    case StartEv(g, u) =>
      (match Start(c, g, u)
       case Ok(d) => d
       case Err(_) => c)
    case StopEv => Stop(c)
    case TickEv(o, reaction) => Tick(c, o, reaction).cache
    case LateEv(v) => LateResult(c, v)
    case ReadEv(load) =>
      (match Read(c, load)
       case Ok(loaded) => loaded.cache
       case Err(_) => c)
    case LookupEv(k, load) => Lookup(c, k, load).cache
  }

  /** The cache after a sequence of events, applied in order. */
  function Run(c: CacheState, es: seq<Event>): CacheState
    requires AllAdmissible(es)
    decreases |es|
  {
    if es == [] then c
    else Run(Step(c, es[0]), es[1..])
  }

  /** The cache after a sequence of timer executions. */
  function RunTicks(c: CacheState, os: seq<Outcome>, reaction: Reaction): CacheState
    decreases |os|
  {
    if os == [] then c
    else RunTicks(Tick(c, os[0], reaction).cache, os[1..], reaction)
  }

  /** No event sequence ever leaves two tasks of a cache running: `start`
      always shuts the previous task down first. */
  lemma {:induction false} RunKeepsOneTask(c: CacheState, es: seq<Event>)
    requires Valid(c)
    requires AllAdmissible(es)
    ensures Valid(Run(c, es))
    ensures RunningCount(Run(c, es).tasks) <= 1
    decreases |es|
  {
    if es == [] {
      RunningCountOfCurrent(c.tasks);
    } else {
      RunKeepsOneTask(Step(c, es[0]), es[1..]);
    }
  }

  /** From a new cache, any history of events leaves at most one task running. */
  lemma NeverTwoRunning(key: string, es: seq<Event>)
    requires AllAdmissible(es)
    ensures RunningCount(Run(New(key), es).tasks) <= 1
  {
    RunKeepsOneTask(New(key), es);
  }

  /** A new cache cannot be read and cannot be started: it has no refresher
      and no task. */
  lemma NewCacheUnusable(key: string, load: CallResult, g: Option<Proc>, u: real)
    requires 0.0 <= u < 1.0
    ensures Read(New(key), load) == Err(NotStarted)
    ensures Start(New(key), g, u) == Err(MissingRefresher)
  {
  }

  /** Over timer executions of a running cache, the value is the result of
      the last successful execution, or the value it had before when none
      succeeded; failures and timeouts never replace it. */
  lemma {:induction false} TicksKeepLastGood(c: CacheState, os: seq<Outcome>, reaction: Reaction)
    requires IsRunning(c)
    ensures IsRunning(RunTicks(c, os, reaction))
    ensures RunTicks(c, os, reaction).tasks == c.tasks
    ensures (forall i :: 0 <= i < |os| ==> !os[i].Success?) ==>
      RunTicks(c, os, reaction).value == c.value
    ensures forall i :: 0 <= i < |os| && os[i].Success? && (forall j :: i < j < |os| ==> !os[j].Success?) ==>
      RunTicks(c, os, reaction).value == os[i].result
    decreases |os|
  {
    if os != [] {
      var d := Tick(c, os[0], reaction).cache;
      var rest := os[1..];
      TicksKeepLastGood(d, rest, reaction);
      assert RunTicks(c, os, reaction) == RunTicks(d, rest, reaction);
      forall i | 0 <= i < |os| && os[i].Success? && (forall j :: i < j < |os| ==> !os[j].Success?)
        ensures RunTicks(c, os, reaction).value == os[i].result
      {
        if i == 0 {
          assert forall j :: 0 <= j < |rest| ==> !rest[j].Success? by {
            forall j | 0 <= j < |rest| ensures !rest[j].Success? {
              assert rest[j] == os[j + 1];
            }
          }
        } else {
          assert rest[i - 1] == os[i];
          assert forall j :: i - 1 < j < |rest| ==> !rest[j].Success? by {
            forall j | i - 1 < j < |rest| ensures !rest[j].Success? {
              assert rest[j] == os[j + 1];
            }
          }
        }
      }
      if forall i :: 0 <= i < |os| ==> !os[i].Success? {
        assert forall j :: 0 <= j < |rest| ==> !rest[j].Success? by {
          forall j | 0 <= j < |rest| ensures !rest[j].Success? {
            assert rest[j] == os[j + 1];
          }
        }
      }
    }
  }

  /** A refresher that succeeds once and then keeps failing: reads go on
      returning the first result. */
  lemma StaleValueServed(c: CacheState, v: Value, faults: seq<Outcome>, load: CallResult)
    requires IsRunning(c) && Truthy(v)
    requires forall i :: 0 <= i < |faults| ==> !faults[i].Success?
    ensures var d := RunTicks(c, [Success(v)] + faults, Returns);
      Read(d, load) == Ok(Loaded(d, v))
  {
    var os := [Success(v)] + faults;
    TicksKeepLastGood(c, os, Returns);
    assert forall j :: 0 < j < |os| ==> !os[j].Success? by {
      forall j | 0 < j < |os| ensures !os[j].Success? {
        assert os[j] == faults[j - 1];
      }
    }
  }

  /** Reading a running cache before any load calls the refresher once; the
      result is kept, so a later read returns it without calling again. */
  lemma SyncLoadOnce(c: CacheState, v: Value, next: CallResult)
    requires IsRunning(c) && !Truthy(c.value) && Invocable(c.refresher)
    requires Truthy(v)
    ensures Read(c, Returned(v)).Ok?
    ensures var first := Read(c, Returned(v)).value;
      first.value == v && Read(first.cache, next) == Ok(Loaded(first.cache, v))
  {
  }

  /** `stop` keeps the value, is idempotent, and afterwards ticks do nothing
      and reads fail. */
  lemma StopKeepsValue(c: CacheState, o: Outcome, reaction: Reaction, load: CallResult)
    ensures Stop(c).value == c.value
    ensures Stop(Stop(c)) == Stop(c)
    ensures Tick(Stop(c), o, reaction) == TickResult(Stop(c), [])
    ensures Read(Stop(c), load) == Err(NotStarted)
  {
  }

  /** Restarting keeps what was loaded: a started cache answers its old
      value at once. */
  lemma RestartKeepsValue(c: CacheState, g: Option<Proc>, u: real, load: CallResult)
    requires 0.0 <= u < 1.0
    requires Start(c, g, u).Ok? && Truthy(c.value)
    ensures var d := Start(c, g, u).value; Read(d, load) == Ok(Loaded(d, c.value))
  {
  }

  /** The handler a fault reaches is the one resolved when `start` built the
      observer: changing the cache's handler afterwards has no effect until
      the next start. */
  lemma HandlerResolvedAtStart(c: CacheState, g: Option<Proc>, u: real, later: Option<Proc>,
                               e: string, reaction: Reaction)
    requires 0.0 <= u < 1.0
    requires Start(c, g, u).Ok?
    ensures var d := SetErrorHandler(Start(c, g, u).value, later);
      Tick(d, Failure(e), reaction).effects
        == Update(NewObserver(c.errorHandler, g, Some(c.key)), Some(Raised(e)), reaction)
  {
  }

  /** Nothing tracks generations: after `stop`, an execution still in flight
      replaces the value, and after a restart an execution of the old task
      replaces the value the new task serves. */
  lemma LateResultOverwrites(c: CacheState, v: Value, g: Option<Proc>, u: real, load: CallResult)
    requires HasTask(c) && 0.0 <= u < 1.0 && Truthy(v)
    ensures !IsRunning(LateResult(Stop(c), v)) && LateResult(Stop(c), v).value == v
    ensures Start(c, g, u).Ok? ==>
      var d := LateResult(Start(c, g, u).value, v);
      IsRunning(d) && Read(d, load) == Ok(Loaded(d, v))
  {
  }

  /** `obj[k]` on a loaded hash is the entry under `k`, or nil when absent. */
  lemma LookupLoadedHash(c: CacheState, m: map<string, Value>, k: string, load: CallResult)
    requires IsRunning(c) && c.value == Hash(m)
    ensures Lookup(c, k, load) == Lookedup(c, Ok(if k in m then m[k] else Nil))
  {
  }

  /** `obj[k]` on a value that is not a hash raises, but only after the
      synchronous load has stored that value: the next read answers it
      without calling the refresher again. */
  lemma LookupKeepsLoad(c: CacheState, v: Value, k: string, next: CallResult)
    requires IsRunning(c) && !Truthy(c.value) && Invocable(c.refresher)
    requires Truthy(v) && !v.Hash?
    ensures var l := Lookup(c, k, Returned(v));
      && l.answer == Err(NotIndexable)
      && l.cache.value == v
      && Read(l.cache, next) == Ok(Loaded(l.cache, v))
  {
  }
}
