/** One periodically refreshed cache (class `Caddy::Cache`). The timer task
    that drives it is abstracted into explicit events: `Start`, `Stop`, a
    `Tick` carrying the outcome of one execution, and `Read`. */
module Cache {
  import opened Base
  import Schedule
  import opened TaskObserver
  import opened Tasks

  /** Refresh interval of a new cache, in seconds. */
  const DefaultRefreshInterval: real := 60.0

  /** Lower bound on the jitter amount, in seconds. */
  const JitterFloor: real := 0.1

  /** The cache object; `tasks` lists every timer task it has created, the
      last being `@task`. */
  datatype CacheState = CacheState(
    key: string,
    refresher: Option<Proc>,
    refreshInterval: real,
    errorHandler: Option<Proc>,
    value: Value,
    tasks: seq<Task>)

  /** The outcome of one execution of the timer task. */
  datatype Outcome = Success(result: Value) | Failure(error: string) | Timeout

  /** The outcome of calling the refresher directly, without a timer. */
  datatype CallResult = Returned(result: Value) | Threw(error: string)

  /** A successful read: the cache afterwards and the value returned. */
  datatype Loaded = Loaded(cache: CacheState, value: Value)

  /** `obj[k]`: the cache afterwards, and the entry or the error raised. */
  datatype Lookedup = Lookedup(cache: CacheState, answer: Result<Value, ReadError>)

  /** A tick: the cache afterwards and what the observer did. */
  datatype TickResult = TickResult(cache: CacheState, effects: seq<Effect>)

  predicate HasTask(c: CacheState) {
    |c.tasks| > 0
  }

  function Current(c: CacheState): Task
    requires HasTask(c)
  {
    c.tasks[|c.tasks| - 1]
  }

  /** `@task && @task.running?` */
  predicate IsRunning(c: CacheState) {
    CurrentRunning(c.tasks)
  }

  /** Only the current task may be running. */
  predicate Valid(c: CacheState) {
    OnlyCurrentMayRun(c.tasks)
  }

  /** Everything but the value and the tasks is the same. */
  predicate SameConfig(c: CacheState, d: CacheState) {
    && c.key == d.key
    && c.refresher == d.refresher
    && c.refreshInterval == d.refreshInterval
    && c.errorHandler == d.errorHandler
  }

  function FaultOf(o: Outcome): Fault
    requires !o.Success?
  {
    if o.Timeout? then TimedOut else Raised(o.error)
  }

  /** `Cache.new(key)` */
  function New(key: string): (c: CacheState)
    ensures Valid(c) && !IsRunning(c)
    ensures c.key == key && c.refreshInterval == DefaultRefreshInterval
    ensures c.refresher.None? && c.errorHandler.None? && !Truthy(c.value)
  {
    CacheState(key, None, DefaultRefreshInterval, None, Nil, [])
  }

  /** `refresher=`: only the refresher changes. A running task reads the
      refresher afresh on every execution, so its next execution already
      calls the new one (and fails if it is unset). */
  function SetRefresher(c: CacheState, p: Option<Proc>): (r: CacheState)
    ensures r.refresher == p
    ensures r.key == c.key && r.refreshInterval == c.refreshInterval && r.errorHandler == c.errorHandler
    ensures r.value == c.value && r.tasks == c.tasks
  {
    c.(refresher := p)
  }

  /** `refresh_interval=`: only the interval changes; a running task keeps
      its own until the next start. */
  function SetRefreshInterval(c: CacheState, interval: real): (r: CacheState)
    ensures r.refreshInterval == interval
    ensures r.key == c.key && r.refresher == c.refresher && r.errorHandler == c.errorHandler
    ensures r.value == c.value && r.tasks == c.tasks
  {
    c.(refreshInterval := interval)
  }

  /** `error_handler=`: only the handler changes; a running task's observer
      keeps the one it resolved at start. */
  function SetErrorHandler(c: CacheState, h: Option<Proc>): (r: CacheState)
    ensures r.errorHandler == h
    ensures r.key == c.key && r.refresher == c.refresher && r.refreshInterval == c.refreshInterval
    ensures r.value == c.value && r.tasks == c.tasks
  {
    c.(errorHandler := h)
  }

  /** `stop`: shut the current task down if it runs. */
  function Stop(c: CacheState): (r: CacheState)
    ensures SameConfig(c, r) && r.value == c.value
    ensures !IsRunning(r)
    ensures !IsRunning(c) ==> r == c
    ensures |r.tasks| == |c.tasks|
    ensures forall i :: 0 <= i < |c.tasks| - 1 ==> r.tasks[i] == c.tasks[i]
    ensures Valid(c) ==> forall i :: 0 <= i < |r.tasks| ==> r.tasks[i].state != Running
  {
    c.(tasks := ShutdownCurrent(c.tasks))
  }

  /** `start`, with `globalHandler` the module-wide error handler at this
      moment and `u` the uniform sample behind `rand`. Errors are raised
      before anything is stopped or scheduled, so on failure the cache is
      the one passed in. On success the method answers `@task.running?`,
      which is true of the task just executed. */
  function Start(c: CacheState, globalHandler: Option<Proc>, u: real): (r: Result<CacheState, StartError>)
    requires 0.0 <= u < 1.0
    ensures r.Err? <==> !Invocable(c.refresher) || c.refreshInterval <= 0.0
    // the refresher is checked before the interval
    ensures !Invocable(c.refresher) ==> r == Err(MissingRefresher)
    ensures Invocable(c.refresher) && c.refreshInterval <= 0.0 ==> r == Err(InvalidInterval)
    ensures r.Ok? ==>
      && SameConfig(c, r.value)
      && r.value.value == c.value
      && IsRunning(r.value)
      && |r.value.tasks| == |c.tasks| + 1
      && r.value.tasks[..|c.tasks|] == Stop(c).tasks
    // the jittered interval, the timeout and the resolved handler of the new task
    ensures r.Ok? ==>
      var t := Current(r.value);
      var j := Schedule.JitterAmount(JitterFloor, c.refreshInterval);
      && c.refreshInterval - j <= t.interval < c.refreshInterval + j
      && t.timeout == Schedule.TimeoutFor(t.interval)
      && t.observer == NewObserver(c.errorHandler, globalHandler, Some(c.key))
    // starting never leaves two tasks running
    ensures r.Ok? && Valid(c) ==> Valid(r.value) && RunningCount(r.value.tasks) == 1
  {
    if !Invocable(c.refresher) then Err(MissingRefresher)
    else if c.refreshInterval <= 0.0 then Err(InvalidInterval)
    else
      var interval := Schedule.EffectiveInterval(JitterFloor, c.refreshInterval, u);
      var timeout := Schedule.TimeoutFor(interval);
      var stopped := Stop(c);
      var task := Task(interval, timeout, NewObserver(c.errorHandler, globalHandler, Some(c.key)), Running);
      var r := stopped.(tasks := stopped.tasks + [task]);
      assert r.tasks[..|c.tasks|] == stopped.tasks;
      if Valid(c) then
        Replace(c.tasks, task);
        Ok(r)
      else Ok(r)
  }

  /** One execution of the running timer task, with `reaction` telling
      how the error handler behaves if it is invoked. A success replaces
      the whole value with the refresher's result; a failure or a timeout
      leaves the value alone and is routed through the observer. Without a
      running task nothing fires. The outcome is taken as given: a
      `Success` is accepted even when the refresher has since been unset,
      which the execution would turn into a failure. */
  function Tick(c: CacheState, o: Outcome, reaction: Reaction): (r: TickResult)
    ensures SameConfig(c, r.cache) && r.cache.tasks == c.tasks
    ensures !IsRunning(c) ==> r == TickResult(c, [])
    ensures IsRunning(c) && o.Success? ==> r.cache.value == o.result && r.effects == []
    ensures !o.Success? ==> r.cache.value == c.value
    ensures IsRunning(c) && !o.Success? ==>
      r.effects == Update(Current(c).observer, Some(FaultOf(o)), reaction)
  {
    if !IsRunning(c) then TickResult(c, [])
    else
      var observer := Current(c).observer;
      match o
      case Success(v) => TickResult(c.(value := v), Update(observer, None, reaction))
      case Failure(e) => TickResult(c, Update(observer, Some(Raised(e)), reaction))
      case Timeout => TickResult(c, Update(observer, Some(TimedOut), reaction))
  }

  /** An execution that was already in flight when its task was shut down
      or replaced, whose refresher returns `v` only now. `refresh_cache`
      does not ask which task it runs for, so the value is replaced even
      after `stop` or a restart. Without any task no execution can be in
      flight. */
  function LateResult(c: CacheState, v: Value): (r: CacheState)
    ensures SameConfig(c, r) && r.tasks == c.tasks
    ensures HasTask(c) ==> r.value == v
    ensures !HasTask(c) ==> r == c
  {
    if HasTask(c) then c.(value := v) else c
  }

  /** `cache`, with `load` the outcome of the synchronous refresher call made
      when nothing (or a false value) has been loaded yet. */
  function Read(c: CacheState, load: CallResult): (r: Result<Loaded, ReadError>)
    ensures r == Err(NotStarted) <==> !IsRunning(c)
    // a read never touches the configuration or the tasks, and a successful
    // read leaves the cache holding exactly the value it returned
    ensures r.Ok? ==> SameConfig(c, r.value.cache) && r.value.cache.tasks == c.tasks
    ensures r.Ok? ==> r.value.cache.value == r.value.value
    // a loaded cache is answered without calling the refresher
    ensures IsRunning(c) && Truthy(c.value) ==> r == Ok(Loaded(c, c.value))
    // otherwise the answer is the result of one synchronous refresher call
    ensures r.Ok? && !Truthy(c.value) ==> Invocable(c.refresher) && load == Returned(r.value.value)
    ensures IsRunning(c) && !Truthy(c.value) && Invocable(c.refresher) ==>
      (load.Returned? <==> r.Ok?)
    ensures IsRunning(c) && !Truthy(c.value) && Invocable(c.refresher) && load.Threw? ==>
      r == Err(RefresherRaised(load.error))
    ensures IsRunning(c) && !Truthy(c.value) && !Invocable(c.refresher) ==>
      r == Err(RefresherNotCallable)
  {
    if !IsRunning(c) then Err(NotStarted)
    else if Truthy(c.value) then Ok(Loaded(c, c.value))
    else if !Invocable(c.refresher) then Err(RefresherNotCallable)
    else match load
      case Returned(v) => Ok(Loaded(c.(value := v), v))
      case Threw(e) => Err(RefresherRaised(e))
  }

  /** `cache[k]` */
  function Lookup(c: CacheState, k: string, load: CallResult): (r: Lookedup)
    // a failed read fails the lookup and leaves the cache as it was
    ensures Read(c, load).Err? ==> r == Lookedup(c, Err(Read(c, load).error))
    // after a successful read the cache keeps what the read loaded, even when
    // indexing then fails
    ensures Read(c, load).Ok? ==> r.cache == Read(c, load).value.cache
    ensures Read(c, load).Ok? && !Read(c, load).value.value.Hash? ==> r.answer == Err(NotIndexable)
    ensures Read(c, load).Ok? && Read(c, load).value.value.Hash? ==> r.answer.Ok?
    ensures r.answer.Ok? ==>
      && Read(c, load).Ok?
      && var m := Read(c, load).value.value.entries;
         r.answer.value == if k in m then m[k] else Nil
  {
    match Read(c, load)
    case Err(e) => Lookedup(c, Err(e))
    case Ok(loaded) => Lookedup(loaded.cache, Index(loaded.value, k))
  }
}
