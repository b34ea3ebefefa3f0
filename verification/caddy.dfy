/** The module-level single cache (`Caddy.start`, `Caddy.cache`, `Caddy.stop`
    in lib/caddy.rb): one refresher for the whole process, whose value is
    whatever the timer task reports as its own, and a guard against starting
    again in a forked child. */
module Caddy {
  import opened Base
  import Schedule
  import opened TaskObserver
  import opened Tasks

  /** Refresh interval before one is assigned, in seconds. */
  const DefaultRefreshInterval: real := 60.0

  /** Lower bound on the jitter amount, in seconds. */
  const JitterFloor: real := 1.0

  /** The module's state. `taskValue` is the value the current timer task
      reports: the result of its last recorded execution, nil before the
      first. `startedPid` is the process that last started successfully. */
  datatype GlobalState = GlobalState(
    refresher: Option<Proc>,
    errorHandler: Option<Proc>,
    refreshInterval: real,
    tasks: seq<Task>,
    taskValue: Value,
    startedPid: Option<int>)

  /** `start` as it reads: the state afterwards and the error it raised, if any. */
  datatype Attempt = Attempt(state: GlobalState, raised: Option<StartError>)

  predicate HasTask(s: GlobalState) {
    |s.tasks| > 0
  }

  predicate IsRunning(s: GlobalState) {
    CurrentRunning(s.tasks)
  }

  predicate Valid(s: GlobalState) {
    OnlyCurrentMayRun(s.tasks)
  }

  /** Everything that `start` and `stop` do not touch. */
  predicate SameConfig(s: GlobalState, t: GlobalState) {
    && s.refresher == t.refresher
    && s.errorHandler == t.errorHandler
    && s.refreshInterval == t.refreshInterval
  }

  /** The state when the module is loaded. */
  function Initial(): (s: GlobalState)
    ensures Valid(s) && !HasTask(s) && s.startedPid.None?
    ensures s.refreshInterval == DefaultRefreshInterval
    ensures s.refresher.None? && s.errorHandler.None?
  {
    GlobalState(None, None, DefaultRefreshInterval, [], Nil, None)
  }

  /** `Caddy.refresher=`: only the refresher changes. */
  function SetRefresher(s: GlobalState, p: Option<Proc>): (r: GlobalState)
    ensures r.refresher == p
    ensures r.errorHandler == s.errorHandler && r.refreshInterval == s.refreshInterval
    ensures r.tasks == s.tasks && r.taskValue == s.taskValue && r.startedPid == s.startedPid
  {
    s.(refresher := p)
  }

  /** `Caddy.refresh_interval=`: only the interval changes. */
  function SetRefreshInterval(s: GlobalState, interval: real): (r: GlobalState)
    ensures r.refreshInterval == interval
    ensures r.refresher == s.refresher && r.errorHandler == s.errorHandler
    ensures r.tasks == s.tasks && r.taskValue == s.taskValue && r.startedPid == s.startedPid
  {
    s.(refreshInterval := interval)
  }

  /** `Caddy.error_handler=`: only the handler changes. */
  function SetErrorHandler(s: GlobalState, h: Option<Proc>): (r: GlobalState)
    ensures r.errorHandler == h
    ensures r.refresher == s.refresher && r.refreshInterval == s.refreshInterval
    ensures r.tasks == s.tasks && r.taskValue == s.taskValue && r.startedPid == s.startedPid
  {
    s.(errorHandler := h)
  }

  /** Whether starting from process `pid` would run in a forked child. */
  predicate Forked(s: GlobalState, pid: int) {
    s.startedPid.Some? && s.startedPid.value != pid
  }

  /** The checks `start` makes before touching anything, in their order. */
  function Validate(s: GlobalState, pid: int): (r: Option<StartError>)
    ensures r.None? <==> Invocable(s.refresher) && s.refreshInterval > 0.0 && !Forked(s, pid)
    ensures !Invocable(s.refresher) ==> r == Some(MissingRefresher)
    ensures Invocable(s.refresher) && s.refreshInterval <= 0.0 ==> r == Some(InvalidInterval)
    ensures Invocable(s.refresher) && s.refreshInterval > 0.0 && Forked(s, pid) ==> r == Some(ForkMisuse)
  {
    if !Invocable(s.refresher) then Some(MissingRefresher)
    else if s.refreshInterval <= 0.0 then Some(InvalidInterval)
    else if Forked(s, pid) then Some(ForkMisuse)
    else None
  }

  /** Whether `[1, ri * 0.15].max` is the Integer 1: 15% of the interval does
      not exceed it, and on a tie `max` keeps the first element. `rand` then
      draws from the Integer range `-1...1`. */
  predicate IntegerJitter(ri: real) {
    ri * Schedule.JitterPct <= JitterFloor
  }

  /** `refresh_interval + rand(-jitter_amount...jitter_amount)`. */
  function ExecutionInterval(ri: real, u: real): (e: real)
    requires 0.0 <= u < 1.0
    // an Integer jitter amount: the interval is one second shorter, or unchanged
    ensures IntegerJitter(ri) ==> e == ri - JitterFloor || e == ri
    // a Float jitter amount: anywhere in the half-open range of 15% either side
    ensures !IntegerJitter(ri) ==> ri - ri * Schedule.JitterPct <= e < ri + ri * Schedule.JitterPct
    // either way within the jitter amount
    ensures ri - Schedule.JitterAmount(JitterFloor, ri) <= e < ri + Schedule.JitterAmount(JitterFloor, ri)
  {
    if IntegerJitter(ri) then ri + Schedule.IntegerDraw(-1, 1, u) as real
    else Schedule.EffectiveInterval(JitterFloor, ri, u)
  }

  /** The possible execution intervals are exactly those stated by
      `ExecutionInterval`: both integer outcomes, and every point of the
      Float range, are drawn by some sample. */
  lemma ExecutionIntervalCoversRange(ri: real, e: real)
    requires IntegerJitter(ri) ==> e == ri - JitterFloor || e == ri
    requires !IntegerJitter(ri) ==> ri - ri * Schedule.JitterPct <= e < ri + ri * Schedule.JitterPct
    ensures exists u :: 0.0 <= u < 1.0 && ExecutionInterval(ri, u) == e
  {
    if IntegerJitter(ri) {
      var d := if e == ri then 0 else -1;
      Schedule.IntegerDrawCoversRange(-1, 1, d);
      var u :| 0.0 <= u < 1.0 && Schedule.IntegerDraw(-1, 1, u) == d;
      assert ExecutionInterval(ri, u) == e;
    } else {
      assert Schedule.JitterAmount(JitterFloor, ri) == ri * Schedule.JitterPct;
      Schedule.EffectiveIntervalCoversRange(JitterFloor, ri, e);
      var u :| 0.0 <= u < 1.0 && Schedule.EffectiveInterval(JitterFloor, ri, u) == e;
      assert ExecutionInterval(ri, u) == e;
    }
  }

  /** For a positive refresh interval, every draw gives a positive execution
      interval exactly when the interval exceeds one second: at or below it
      the draw of -1 leaves nothing. */
  lemma ExecutionIntervalPositiveIff(ri: real)
    requires ri > 0.0
    ensures (forall u :: 0.0 <= u < 1.0 ==> ExecutionInterval(ri, u) > 0.0) <==> ri > JitterFloor
  {
    if ri > JitterFloor {
      forall u | 0.0 <= u < 1.0
        ensures ExecutionInterval(ri, u) > 0.0
      {
        if !IntegerJitter(ri) {
          assert ri * Schedule.JitterPct < ri;
        }
      }
    } else {
      assert IntegerJitter(ri);
      assert Schedule.IntegerDraw(-1, 1, 0.0) == -1;
      assert ExecutionInterval(ri, 0.0) <= 0.0;
    }
  }

  /** `stop` */
  function Stop(s: GlobalState): (r: GlobalState)
    ensures SameConfig(s, r) && r.taskValue == s.taskValue && r.startedPid == s.startedPid
    ensures HasTask(r) == HasTask(s) && !IsRunning(r)
    ensures !IsRunning(s) ==> r == s
    ensures Valid(s) ==> Valid(r) && RunningCount(r.tasks) == 0
  {
    var r := s.(tasks := ShutdownCurrent(s.tasks));
    if Valid(s) then
      NoneRunning(r.tasks);
      r
    else r
  }

  /** `start` from process `pid`, with `u` the uniform sample behind `rand`.
      The observer is the one the evidently intended `TaskObserver.new`
      builds: no per-cache handler and no cache name, so faults reach the
      module's error handler. */
  function Start(s: GlobalState, pid: int, u: real): (r: Result<GlobalState, StartError>)
    requires 0.0 <= u < 1.0
    // validation and the fork guard raise before anything changes
    ensures r.Err? <==> Validate(s, pid).Some?
    ensures r.Err? ==> r.error == Validate(s, pid).value
    ensures r.Ok? ==>
      && SameConfig(s, r.value)
      && r.value.startedPid == Some(pid)
      && IsRunning(r.value)
      && |r.value.tasks| == |s.tasks| + 1
      && r.value.tasks[..|s.tasks|] == ShutdownCurrent(s.tasks)
      // the new task has not produced a value yet
      && r.value.taskValue == Nil
    ensures r.Ok? ==>
      var t := r.value.tasks[|r.value.tasks| - 1];
      && t.interval == ExecutionInterval(s.refreshInterval, u)
      && t.timeout == Schedule.TimeoutFor(t.interval)
      && t.observer == NewObserver(None, s.errorHandler, None)
    ensures r.Ok? && Valid(s) ==> Valid(r.value) && RunningCount(r.value.tasks) == 1
  {
    match Validate(s, pid)
    case Some(e) => Err(e)
    case None =>
      var interval := ExecutionInterval(s.refreshInterval, u);
      var timeout := Schedule.TimeoutFor(interval);
      var task := Task(interval, timeout, NewObserver(None, s.errorHandler, None), Running);
      var tasks := ShutdownCurrent(s.tasks) + [task];
      assert tasks[..|s.tasks|] == ShutdownCurrent(s.tasks);
      var r := s.(tasks := tasks, taskValue := Nil, startedPid := Some(pid));
      if Valid(s) then
        Replace(s.tasks, task);
        Ok(r)
      else Ok(r)
  }

  /** `start` exactly as lib/caddy.rb writes it, against a `TaskObserver`
      whose constructor takes two arguments: after the checks it stops the old
      task and creates the new one, then `TaskObserver.new` with no arguments
      raises, so the new task is never executed and no pid is recorded. */
  function StartAsWritten(s: GlobalState, pid: int, u: real): (a: Attempt)
    requires 0.0 <= u < 1.0
    ensures a.raised.Some?
    ensures Validate(s, pid).Some? ==> a == Attempt(s, Validate(s, pid))
    ensures Validate(s, pid).None? ==> a.raised == Some(ObserverArity)
    // by then the old task is stopped and the new one created but not executed;
    // the value is gone and no pid is recorded
    ensures Validate(s, pid).None? ==>
      && SameConfig(s, a.state)
      && a.state.startedPid == s.startedPid
      && a.state.taskValue == Nil
      && |a.state.tasks| == |s.tasks| + 1
      && a.state.tasks[..|s.tasks|] == ShutdownCurrent(s.tasks)
    ensures Validate(s, pid).None? ==>
      var t := a.state.tasks[|a.state.tasks| - 1];
      && t.state == Pending
      && t.interval == ExecutionInterval(s.refreshInterval, u)
      && t.timeout == Schedule.TimeoutFor(t.interval)
  {
    match Validate(s, pid)
    case Some(e) => Attempt(s, Some(e))
    case None =>
      var interval := ExecutionInterval(s.refreshInterval, u);
      var timeout := Schedule.TimeoutFor(interval);
      var task := Task(interval, timeout, NewObserver(None, None, None), Pending);
      var tasks := ShutdownCurrent(s.tasks) + [task];
      assert tasks[..|s.tasks|] == ShutdownCurrent(s.tasks);
      Attempt(s.(tasks := tasks, taskValue := Nil), Some(ObserverArity))
  }

  /** `cache`: fails when never started, fails while the task's value is nil
      (or false), and otherwise answers it; it does not check that the task
      still runs. */
  function Read(s: GlobalState): (r: Result<Value, ReadError>)
    ensures r == Err(NotStarted) <==> !HasTask(s)
    ensures r == Err(NotYetLoaded) <==> HasTask(s) && !Truthy(s.taskValue)
    ensures r.Ok? <==> HasTask(s) && Truthy(s.taskValue)
    ensures r.Ok? ==> r.value == s.taskValue
  {
    if !HasTask(s) then Err(NotStarted)
    else if !Truthy(s.taskValue) then Err(NotYetLoaded)
    else Ok(s.taskValue)
  }

  /** `Caddy[k]` */
  function Lookup(s: GlobalState, k: string): (r: Result<Value, ReadError>)
    ensures Read(s).Err? ==> r == Read(s)
    ensures Read(s).Ok? && !s.taskValue.Hash? ==> r == Err(NotIndexable)
    ensures Read(s).Ok? && s.taskValue.Hash? ==> r.Ok?
    ensures r.Ok? ==> s.taskValue.Hash? && Read(s).Ok?
    ensures r.Ok? ==> r.value == if k in s.taskValue.entries then s.taskValue.entries[k] else Nil
  {
    match Read(s)
    case Err(e) => Err(e)
    case Ok(v) => Index(v, k)
  }

  /** An execution of the running task that returned `v`, recorded as the
      task's value. */
  function Publish(s: GlobalState, v: Value): (r: GlobalState)
    ensures SameConfig(s, r) && r.tasks == s.tasks && r.startedPid == s.startedPid
    ensures IsRunning(s) ==> r.taskValue == v
    ensures !IsRunning(s) ==> r == s
  {
    if IsRunning(s) then s.(taskValue := v) else s
  }

  /** A fault of an execution of the running task, handed to its observer. */
  function NotifyFault(s: GlobalState, f: Fault, reaction: Reaction): (r: seq<Effect>)
    ensures !IsRunning(s) ==> r == []
    ensures IsRunning(s) ==> |r| > 0
    // the running task's observer routes the fault
    ensures IsRunning(s) ==> r == Update(s.tasks[|s.tasks| - 1].observer, Some(f), reaction)
  {
    if IsRunning(s) then Update(s.tasks[|s.tasks| - 1].observer, Some(f), reaction) else []
  }
}
