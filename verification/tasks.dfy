/** The timer tasks a start creates (a `Concurrent::TimerTask` each), kept as
    the list of every task created so far, oldest first. The last one is the
    task the owner currently refers to; earlier ones are no longer referenced
    but would keep firing if they had been left running. */
module Tasks {
  import opened Base
  import opened TaskObserver

  /** A timer task: its jittered execution interval, its timeout, the observer
      attached to it, and whether it runs. */
  datatype Task = Task(interval: real, timeout: real, observer: Observer, state: TaskState)

  /** `@task && @task.running?` */
  predicate CurrentRunning(ts: seq<Task>) {
    |ts| > 0 && ts[|ts| - 1].state == Running
  }

  /** Only the current task may be running. */
  predicate OnlyCurrentMayRun(ts: seq<Task>) {
    forall i :: 0 <= i < |ts| - 1 ==> ts[i].state != Running
  }

  /** Number of running tasks. */
  function RunningCount(ts: seq<Task>): nat {
    if ts == [] then 0
    else (if ts[0].state == Running then 1 else 0) + RunningCount(ts[1..])
  }

  /** `@task.shutdown if @task && @task.running?` */
  function ShutdownCurrent(ts: seq<Task>): (r: seq<Task>)
    ensures |r| == |ts| && !CurrentRunning(r)
    ensures forall i :: 0 <= i < |ts| - 1 ==> r[i] == ts[i]
    ensures !CurrentRunning(ts) ==> r == ts
    ensures OnlyCurrentMayRun(ts) ==> forall i :: 0 <= i < |r| ==> r[i].state != Running
  {
    if CurrentRunning(ts) then ts[|ts| - 1 := ts[|ts| - 1].(state := Shutdown)]
    else ts
  }

  lemma {:induction false} NoneRunning(ts: seq<Task>)
    requires forall i :: 0 <= i < |ts| ==> ts[i].state != Running
    ensures RunningCount(ts) == 0
  {
    if ts != [] {
      NoneRunning(ts[1..]);
    }
  }

  /** When only the current task may run, the running count is one if it
      runs and zero otherwise. */
  lemma {:induction false} RunningCountOfCurrent(ts: seq<Task>)
    requires OnlyCurrentMayRun(ts)
    ensures RunningCount(ts) == if CurrentRunning(ts) then 1 else 0
  {
    if |ts| == 0 {
    } else if |ts| == 1 {
      assert ts[1..] == [];
    } else {
      RunningCountOfCurrent(ts[1..]);
    }
  }

  /** Stopping the current task and executing a new one leaves exactly one
      task running, whatever ran before. */
  lemma Replace(ts: seq<Task>, t: Task)
    requires OnlyCurrentMayRun(ts) && t.state == Running
    ensures var r := ShutdownCurrent(ts) + [t];
      OnlyCurrentMayRun(r) && CurrentRunning(r) && RunningCount(r) == 1
  {
    RunningCountOfCurrent(ShutdownCurrent(ts) + [t]);
  }
}
