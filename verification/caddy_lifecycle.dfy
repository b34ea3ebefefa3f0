/** Properties of the module-level cache across start, stop, executions of
    its timer task and reads. */
module CaddyLifecycle {
  import opened Base
  import opened TaskObserver
  import opened Tasks
  import opened Caddy

  /** Before any start, reads fail and starting fails for want of a refresher. */
  lemma InitialUnusable(pid: int, u: real)
    requires 0.0 <= u < 1.0
    ensures Read(Initial()) == Err(NotStarted)
    ensures Start(Initial(), pid, u) == Err(MissingRefresher)
  {
  }

  /** Right after a start nothing has loaded: the read fails instead of
      loading synchronously, even when an earlier task had a value. */
  lemma StartedNotYetLoaded(s: GlobalState, pid: int, u: real)
    requires 0.0 <= u < 1.0
    requires Start(s, pid, u).Ok?
    ensures Read(Start(s, pid, u).value) == Err(NotYetLoaded)
  {
  }

  /** A recorded execution result is what reads answer, and it is still
      answered after `stop`, since the read only asks whether a task exists. */
  lemma PublishedValueRead(s: GlobalState, v: Value, k: string)
    requires IsRunning(s) && Truthy(v)
    ensures Read(Publish(s, v)) == Ok(v)
    ensures Read(Stop(Publish(s, v))) == Ok(v)
    ensures v.Hash? ==> Lookup(Publish(s, v), k) == Ok(if k in v.entries then v.entries[k] else Nil)
  {
  }

  /** Once started in one process, a start from another process fails with
      the fork error, while a restart in the same process succeeds. */
  lemma ForkedRestartFails(s: GlobalState, pid: int, u: real, other: int, u2: real)
    requires 0.0 <= u < 1.0 && 0.0 <= u2 < 1.0
    requires Start(s, pid, u).Ok?
    ensures other != pid ==> Start(Start(s, pid, u).value, other, u2) == Err(ForkMisuse)
    ensures Start(Start(s, pid, u).value, pid, u2).Ok?
  {
  }

  /** Faults of the started task reach the module's error handler as it was
      at start; without one, a timeout is logged as such. */
  lemma FaultsReachGlobalHandler(s: GlobalState, pid: int, u: real, f: Fault, later: Option<Proc>)
    requires 0.0 <= u < 1.0
    requires Start(s, pid, u).Ok?
    ensures var t := SetErrorHandler(Start(s, pid, u).value, later);
      && (Invocable(s.errorHandler) ==> NotifyFault(t, f, Returns) == [CallHandler(f)])
      && (s.errorHandler.None? && f.TimedOut? ==> NotifyFault(t, f, Returns) == [LogTimedOut(None)])
  {
  }

  /** As written, a start that passes every check still raises: the new task
      is never executed, nothing runs, no pid is recorded and reads keep
      failing. */
  lemma StartAsWrittenNeverRuns(s: GlobalState, pid: int, u: real)
    requires 0.0 <= u < 1.0
    requires Valid(s) && Validate(s, pid).None?
    ensures var a := StartAsWritten(s, pid, u);
      && a.raised == Some(ObserverArity)
      && RunningCount(a.state.tasks) == 0
      && a.state.startedPid == s.startedPid
      && Read(a.state) == Err(NotYetLoaded)
  {
    var a := StartAsWritten(s, pid, u);
    NoneRunning(a.state.tasks);
  }

  /** The smallest witness: a callable refresher with the default interval,
      never started before. The code as written raises; the intended start
      runs a task. */
  lemma StartAsWrittenCounterexample()
    ensures var s := SetRefresher(Initial(), Some(Proc(true)));
      && StartAsWritten(s, 1, 0.5).raised == Some(ObserverArity)
      && Start(s, 1, 0.5).Ok? && IsRunning(Start(s, 1, 0.5).value)
  {
  }
}
