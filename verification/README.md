# Caddy refresh engine, modelled in Dafny

Caddy keeps caches whose values are produced in the background. A
caller-supplied refresher runs on a jittered interval, and a failed refresh
never removes the last good value. This project models that engine as pure
transition functions over immutable state. The background timer
(`Concurrent::TimerTask`) becomes explicit events: `Start`, `Stop`, a `Tick`
carrying the outcome of one execution (`Success v`, `Failure e` or
`Timeout`), and `Read`.

Modules, one per source component:

- `Base`: shared vocabulary. It holds `Option` and `Result`, and the Ruby
  values a refresher can return, with Ruby truthiness (`nil` and `false` are
  false). It also holds `Proc`, a configured refresher or handler with a flag
  for whether it responds to `call`, and the start and read errors.
- `Schedule`: the arithmetic of `start` in `real` numbers. It covers the
  jitter amount `max(floor, 0.15 * interval)` and the timeout
  `max(interval - 1, 0.1)`. It also covers `rand(lo...hi)` for a sample `u`
  in [0, 1). On a Float range the draw is `lo + u * (hi - lo)`. On an
  Integer range it is the floor of that, so one of `lo`, ..., `hi - 1`. The
  per-cache effective interval uses the Float draw.
- `TaskObserver`: handler resolution (`initialize`) and fault routing
  (`update`). Routing is a pure function to a list of effects. Its inputs
  are the observer, the fault (if any) and how the handler behaves. The
  handler can return, raise a `StandardError`, or raise another exception.
  The effects are: call the handler, log "itself errored", "not callable",
  "failed with error" or "timed out", or let the handler's exception
  escape.
- `Tasks`: the timer tasks a start creates. They are kept as a list of every
  task created, so that a task that was never shut down would still show as
  running.
- `Cache` and `CacheLifecycle`: `Caddy::Cache` (lib/caddy/cache.rb), with
  event histories and the properties proved over them.
- `Caddy` and `CaddyLifecycle`: the module-level single cache in
  lib/caddy.rb. It has a fork guard on the recorded pid, and it reads
  `@task.value` without a synchronous load. Its jitter floor is the
  Integer 1 instead of 0.1. When 15% of the interval is at most 1,
  `[1, ri * 0.15].max` is that Integer. `rand(-1...1)` then draws only
  -1 or 0, so the interval is `ri - 1` or `ri`.

Behaviour the model keeps exactly as the code has it:

- Reading a started `Caddy::Cache` before anything has loaded performs one
  synchronous refresher call. It does not fail with "not yet loaded". It
  fails only if that call raises or the refresher is not callable. `nil`
  and `false` values both count as "not loaded". A lookup `obj[k]` keeps
  the value that call stored, even when indexing it then raises.
- Reading a `Caddy::Cache` after `stop` fails, because the task is no
  longer running. The value is still kept, so a later `start` serves it
  again. The module-level `Caddy.cache` only checks that a task exists, so
  it keeps answering after `stop`.
- The jitter range is half-open, `[interval - j, interval + j)`. For a
  `Caddy::Cache` it is covered continuously. For the module-level cache
  this holds only when 15% of the interval exceeds 1. Otherwise the only
  intervals are `interval - 1` and `interval`.
- There is no generation tracking. An execution still in flight when a
  `Caddy::Cache` is stopped or restarted assigns the value when its
  refresher returns (`Cache.LateResult`), even over the value a new task
  has loaded.
- A `Caddy::Cache` restart keeps its value. The corrected module-level
  `start` (`Caddy.Start`, see "## Findings") replaces the timer task. Its
  new task has no value yet, so reads fail until its first execution. As
  written, that start raises and the task never executes.
- A refresher assigned to a running `Caddy::Cache` is used from its next
  execution on, because every execution reads the `refresher` setting.

## Model

| member | source | states |
|---|---|---|
| Schedule.JitterAmount | lib/caddy/cache.rb:66 | the jitter is at least the floor and at least 15% of the interval, and equals one of the two |
| Schedule.Draw | lib/caddy/cache.rb:67 | a draw from `lo...hi` lies in the half-open range [lo, hi) |
| Schedule.DrawCoversRange | lib/caddy/cache.rb:67 | every point of [lo, hi) is drawn by some sample in [0, 1) |
| Schedule.EffectiveInterval | lib/caddy/cache.rb:66-67 | the effective interval lies in [interval - jitter, interval + jitter) |
| Schedule.EffectiveIntervalCoversRange | lib/caddy/cache.rb:66-67 | every point of that half-open range is a possible effective interval |
| Schedule.EffectiveIntervalPositiveIff | lib/caddy/cache.rb:64-67 | for a positive refresh interval, every draw is positive exactly when the interval exceeds the jitter floor of 0.1 |
| Schedule.IntegerDraw | lib/caddy.rb:41 | a draw from an Integer range `lo...hi` is an integer in [lo, hi) |
| Schedule.IntegerDrawCoversRange | lib/caddy.rb:41 | every integer of [lo, hi) is drawn by some sample in [0, 1) |
| Schedule.TimeoutFor | lib/caddy/cache.rb:68 | the timeout is at least 0.1 and at most max(interval, 0.1). It is the interval minus 1 whenever that is at least 0.1, and exactly 0.1 otherwise |
| Base.Index | lib/caddy/cache.rb:38 | `value[k]` succeeds exactly on a hash. A present key answers its entry and an absent key answers nil |
| TaskObserver.NewObserver | lib/caddy/task_observer.rb:6-9 | the resolved handler is the per-cache one when set, otherwise the global one, and it is absent only when both are |
| TaskObserver.Update | lib/caddy/task_observer.rb:11-33 | no fault means no effect. A fault takes exactly one of six branches. A callable handler is called exactly once, first, with the fault. If it raises a `StandardError`, that is logged ("itself errored") and goes no further. Any other exception from it escapes `update`, and only then. A handler that is set but not callable gives "not callable" then "failed with error", even for timeouts. Without a handler, a timeout logs "timed out" and any other fault logs "failed with error" |
| Tasks.ShutdownCurrent | lib/caddy/cache.rb:93-95 | the current task no longer runs, earlier tasks are untouched, and nothing changes when the current task was not running |
| Tasks.RunningCountOfCurrent | lib/caddy/cache.rb:70 | when only the current task may run, the number of running tasks is 1 if it runs and 0 otherwise |
| Tasks.Replace | lib/caddy/cache.rb:70-87 | stopping the current task, then executing a new one, leaves exactly one task running |
| Cache.New | lib/caddy/cache.rb:25-30 | a new cache has interval 60, no refresher, no handler, no value and no running task |
| Cache.SetRefresher | lib/caddy/cache.rb:12 | `refresher=` sets the refresher and leaves every other field, the value and the tasks unchanged |
| Cache.SetRefreshInterval | lib/caddy/cache.rb:16 | `refresh_interval=` sets the interval and leaves every other field, the value and the tasks unchanged |
| Cache.SetErrorHandler | lib/caddy/cache.rb:21 | `error_handler=` sets the handler and leaves every other field, the value and the tasks unchanged |
| Cache.Stop | lib/caddy/cache.rb:90-95 | `stop` keeps the value and the configuration, leaves no task running, and is a no-op when no task runs |
| Cache.Start | lib/caddy/cache.rb:59-88 | fails with the refresher error when the refresher is missing or not callable, and otherwise with the interval error when the interval is <= 0, in both cases before anything is stopped or scheduled. On success the prior task is shut down and one new task runs, with a jittered interval in range, and a timeout that is `max(interval - 1, 0.1)` of that interval. Its observer is resolved from the handlers of that moment. The value is kept |
| Cache.Tick | lib/caddy/cache.rb:72-81 | a successful execution replaces the whole value with the refresher's result. A failure or timeout leaves the value untouched and is routed through the task's observer. The running task schedules nothing once shut down; an execution already in flight is `Cache.LateResult` |
| Cache.LateResult | lib/caddy/cache.rb:76-79 | an execution that outlived its task still replaces the value when its refresher returns. Nothing else changes, and without any task nothing can be in flight |
| Cache.Read | lib/caddy/cache.rb:42-51 | fails with "not started" exactly when no task runs. A loaded value is returned without calling the refresher. Otherwise one synchronous call is made: its result is returned and stored, and a raise fails the read. A successful read leaves the cache holding what it returned |
| Cache.Lookup | lib/caddy/cache.rb:37-39 | `obj[k]` fails as the read fails, and then leaves the cache as it was. After a successful read the cache keeps what the read loaded. The lookup succeeds exactly when that value is a hash, and answers the entry under `k` (nil when absent) |
| CacheLifecycle.Step | lib/caddy/cache.rb:59-111 | every operation keeps "only the current task may run" |
| CacheLifecycle.RunKeepsOneTask | lib/caddy/cache.rb:70-87 | along any sequence of events at most one task of a cache runs |
| CacheLifecycle.NeverTwoRunning | lib/caddy/cache.rb:70 | from a new cache, no history of repeated starts, stops, ticks and reads leaves two tasks running |
| CacheLifecycle.NewCacheUnusable | lib/caddy/cache.rb:25-43 | a new cache cannot be read ("not started") and cannot be started (missing refresher) |
| CacheLifecycle.TicksKeepLastGood | lib/caddy/cache.rb:109-111 | over any run of executions the value is the result of the last successful one, or the earlier value if none succeeded |
| CacheLifecycle.StaleValueServed | test/caddy_test.rb:67-79 | after one success followed by failures and timeouts, reads keep returning the successful value |
| CacheLifecycle.SyncLoadOnce | lib/caddy/cache.rb:45-50 | a read before the first load makes one synchronous call and returns its result. A later read returns it without calling again |
| CacheLifecycle.StopKeepsValue | lib/caddy/cache.rb:90-95 | `stop` keeps the value and is idempotent. Afterwards no execution fires and reads fail with "not started" |
| CacheLifecycle.RestartKeepsValue | lib/caddy/cache.rb:70-87 | after a restart, the value loaded before is served at once |
| CacheLifecycle.HandlerResolvedAtStart | lib/caddy/cache.rb:81 | faults are routed with the handler resolved when `start` built the observer, whatever handler is set afterwards |
| CacheLifecycle.LateResultOverwrites | lib/caddy/cache.rb:109-111 | after `stop` a late result replaces the value while nothing runs. After a restart it replaces the value the new task serves |
| CacheLifecycle.LookupKeepsLoad | lib/caddy/cache.rb:37-50 | a lookup that loads a value other than a hash raises, but the loaded value stays stored, so the next read answers it without calling the refresher |
| CacheLifecycle.LookupLoadedHash | test/caddy_test.rb:25-32 | on a loaded hash, `obj[k]` is the entry under `k` (nil when absent), and no load is made |
| Caddy.Initial | lib/caddy.rb:14-16 | at load time there is no task, no recorded pid, no refresher, and the interval is 60 |
| Caddy.SetRefresher | lib/caddy.rb:8 | `Caddy.refresher=` sets the refresher and leaves the other settings, the tasks, the task's value and the pid unchanged |
| Caddy.SetRefreshInterval | lib/caddy.rb:8 | `Caddy.refresh_interval=` sets the interval and leaves everything else unchanged |
| Caddy.SetErrorHandler | lib/caddy.rb:8 | `Caddy.error_handler=` sets the handler and leaves everything else unchanged |
| Caddy.ExecutionInterval | lib/caddy.rb:40-41 | when 15% of the interval is at most 1, the jitter is the Integer 1 and the execution interval is the interval minus 1 or the interval itself. Otherwise it lies in the half-open range of 15% either side. Either way it is within the jitter amount |
| Caddy.ExecutionIntervalCoversRange | lib/caddy.rb:40-41 | each of those intervals is produced by some sample: both integer outcomes, and every point of the Float range |
| Caddy.ExecutionIntervalPositiveIff | lib/caddy.rb:34-41 | for a positive refresh interval, every draw gives a positive execution interval exactly when the refresh interval exceeds 1 |
| Caddy.Validate | lib/caddy.rb:30-38 | the start checks, in order: refresher missing or not callable, then interval <= 0, then a recorded pid different from the current one |
| Caddy.Stop | lib/caddy.rb:60-62 | shuts the task down only if it runs, and keeps the task's value and the recorded pid |
| Caddy.Start | lib/caddy.rb:29-58 | fails exactly when a check fails, before anything changes. Otherwise it stops the old task and runs one new task. The task's interval is the module's execution interval: the interval minus 1 or the interval itself when the jitter is the Integer 1. Its timeout is `max(interval - 1, 0.1)` of that interval, and its observer routes to the module's handler. `start` records the current pid, and the new task has no value yet |
| Caddy.StartAsWritten | lib/caddy.rb:52 | with the two-argument observer constructor, every start raises. A failed check raises before anything changes. After the checks it raises the arity error. By then the old task is shut down and the value is gone. A new task with the jittered interval and its timeout is created but never executed, and no pid is recorded |
| Caddy.Read | lib/caddy.rb:22-27 | fails when never started, fails while the task's value is nil or false, and otherwise returns that value, whether or not the task still runs |
| Caddy.Lookup | lib/caddy.rb:18-20 | `Caddy[k]` fails as the read fails. After a successful read it succeeds exactly when the value is a hash, and answers the entry under `k` (nil when absent) |
| Caddy.Publish | lib/caddy.rb:46-50 | an execution of the running task records its result as the task's value. Without a running task nothing changes |
| Caddy.NotifyFault | lib/caddy.rb:52 | a fault of the running task is routed by that task's observer and always has some effect. Without a running task there is none |
| CaddyLifecycle.InitialUnusable | lib/caddy.rb:22-34 | before any start, reads fail with "not started" and `start` fails for want of a refresher |
| CaddyLifecycle.StartedNotYetLoaded | lib/caddy.rb:22-27 | right after a start, reads fail with "not yet loaded". There is no synchronous fallback |
| CaddyLifecycle.PublishedValueRead | lib/caddy.rb:18-27 | a recorded result is what reads and lookups answer, also after `stop` |
| CaddyLifecycle.ForkedRestartFails | lib/caddy.rb:36-38 | once started by one pid, a start from another pid fails with the fork error, while a restart from the same pid succeeds |
| CaddyLifecycle.FaultsReachGlobalHandler | lib/caddy/task_observer.rb:7 | faults of the module's task reach the global handler as it was at start. With none, a timeout logs "timed out" |
| CaddyLifecycle.StartAsWrittenNeverRuns | lib/caddy.rb:52-55 | as written, a start that passes every check still raises: nothing runs, no pid is recorded and reads keep failing |
| CaddyLifecycle.StartAsWrittenCounterexample | lib/caddy.rb:52 | for a callable refresher with the default interval, the code as written raises, while the corrected start runs a task |

## Left out

- Timer scheduling, threads, real time, `run_now` and `sleep`. Each execution is a `Tick` event with its outcome, because timing and concurrency cannot be stated in this model.
- The interleaving of an overrunning execution with the timer. Its timeout report is a `Tick` with `Timeout`, and its later completion is a separate `LateResult` event.
- Cache.Tick: takes the execution's outcome as given. A `Success` is accepted even after the refresher was set to nil, when the real execution would fail calling it; the model leaves the choice of outcome to the caller.
- The random draw. The sample `u` in [0, 1) is a parameter.
- Floating-point rounding, including `interval.round(1)` in the debug log. `real` arithmetic is exact.
- Logging text, the debug "starting" log, the warning before a synchronous load, and the two lines `log_exception` writes. The observer's logs are abstract effects, and `log_exception` is one effect.
- `freeze` and Ruby object mutability. Values are immutable datatypes.
- Duck typing. `respond_to?(:call)` is the `callable` flag of a `Proc`, and an unset setting is `None`. A non-numeric `refresh_interval` is not modelled.
- Base.Index: indexing a value other than a hash. It is modelled as an error, though Ruby strings, integers and arrays answer `[]` in their own ways.
- The `task` reader of `Caddy::Cache`, and the boolean `start` returns. The model's start has the new task running, so that boolean is always true.
- The keyed registry that the tests drive (`Caddy[:k].refresher = ...`, `Caddy.restart`, `Caddy.logger`). lib/caddy.rb defines only the single module-level cache, and the registry API is not in that file. Only the per-cache object and the module-level cache are modelled.
- Caddy.Publish: covers only executions that returned a value. What `TimerTask#value` holds after a failed or timed-out execution is decided inside concurrent-ruby, which is not part of this model, so the module-level model makes no claim about it.
- Thread safety of concurrent readers. It is purely a concurrency concern.
- What a timer does with an effective interval <= 0. `Schedule.EffectiveIntervalPositiveIff` and `Caddy.ExecutionIntervalPositiveIff` show when that interval can arise.
- TaskObserver.Update: an exception that escapes the observer is only marked as an effect. What concurrent-ruby's observer notification does with it is not part of this model.

## Findings

| source | as written | input that shows it | evidently intended | confidence | as-written member | corrected member |
|---|---|---|---|---|---|---|
| lib/caddy.rb:52 | `Caddy::TaskObserver.new` is called with no arguments, but `initialize` in lib/caddy/task_observer.rb:6 takes two (`error_handler`, `cache_name`), so `start` raises an argument error. By then it has stopped the old task and created a new one that never executes | a callable refresher, interval 60, first start from pid 1 (`CaddyLifecycle.StartAsWrittenCounterexample`) | an observer with no per-cache handler and no cache name, so that faults reach `Caddy.error_handler`, and a task that executes | not executed; high | Caddy.StartAsWritten (with CaddyLifecycle.StartAsWrittenNeverRuns) | Caddy.Start |
