# StopWatch — a verified model

A Dafny model of `robertefry.jtoolkit.timing.StopWatch`. It is a stopwatch with two states, running and stopped, and three fields updated in place:
- `starttime`, the clock reading of the last effective `start()`;
- `finishtime`, the clock reading of the last `stop()`;
- `running`, the flag.

It also keeps an ordered log of `LapLog` records. `lap()` appends a record of the current `starttime` and `finishtime`, and `clear()` empties the log.

Files:
- `long.dfy` (module `JavaLong`): Java's `long`. It gives the range and the wrapping subtraction behind `getRunningTime()`.
- `stopwatch.dfy` (module `Timing`) holds three things:
  - the immutable `LapLog` datatype. Its constructor arguments are the destructors `starttime` and `finishtime`, which model `getStartTime()` and `getFinishTime()`.
  - `Step`, the effect of one call on the whole state, as a value.
  - the `StopWatch` class. Its fields, methods and `modifies this` clauses follow the Java class. Each mutating method states its new fields and is tied to `Step`.
- `properties.dfy` (module `StopWatchProperties`): `Run` applies `Step` to a sequence of calls in order. Lemmas state what any sequence of calls does to the running flag, the times and the lap log.
- `scenarios.dfy` (module `StopWatchScenarios`): client methods that drive a `StopWatch` object through concrete call sequences.

The wall clock `System.currentTimeMillis()` is replaced by a `now` argument of `Start` and `Stop`. Any `long` value may be passed, so a clock that jumps backwards is covered. No monotonicity is assumed.

The Javadoc of `getFinishTime()` calls the finish time the moment the watch was "stopped or lapped". The code of `lap()` (lines 45-47) does not read the clock and does not write `finishtime`. The model follows the code: `Lap` records the existing fields and changes nothing but the log.

## Model

| member | source | states |
|---|---|---|
| JavaLong.Wrap | src/robertefry/jtoolkit/timing/StopWatch.java:115 | 64-bit two's-complement truncation: the result is a `long` congruent to the input modulo 2^64, and it equals the input whenever that fits in a `long` |
| JavaLong.Sub | src/robertefry/jtoolkit/timing/StopWatch.java:115 | Java `long` subtraction: exact when the difference fits, and always exact for two non-negative operands; on overflow the result is non-zero, its sign is the opposite of the true difference's, and it is congruent to the true difference modulo 2^64, which fixes it exactly |
| Timing.LapLog.RunningTime | src/robertefry/jtoolkit/timing/StopWatch.java:114-116 | the running time added to the start time gives the finish time when the difference fits in a `long`, so always for non-negative timestamps; for those it is negative exactly when the finish time lies before the start time |
| Timing.Initial | src/robertefry/jtoolkit/timing/StopWatch.java:17-19 | the state of a new watch as a value: stopped, empty log, both times 0, so a lap taken at once has running time 0 |
| Timing.Step | src/robertefry/jtoolkit/timing/StopWatch.java:28-54 | the effect of one call, field by field. The watch runs after a `start()`, or if it ran and was not stopped. `starttime` becomes `now` only on a `start()` of a stopped watch. `finishtime` becomes `now` only on a `stop()`. The log gains the current `(starttime, finishtime)` record at its end on `lap()`, becomes empty on `clear()`, and is otherwise kept |
| Timing.StopWatch.constructor | src/robertefry/jtoolkit/timing/StopWatch.java:17-19 | a new watch has `starttime = 0`, `finishtime = 0`, is not running and has an empty lap log |
| Timing.StopWatch.Start | src/robertefry/jtoolkit/timing/StopWatch.java:28-32 | on a running watch nothing changes; on a stopped one `running` becomes true and `starttime` becomes `now`; `finishtime` and the laps are never changed |
| Timing.StopWatch.Stop | src/robertefry/jtoolkit/timing/StopWatch.java:37-40 | in any prior state `running` becomes false and `finishtime` becomes `now`; `starttime` and the laps are unchanged |
| Timing.StopWatch.Lap | src/robertefry/jtoolkit/timing/StopWatch.java:45-47 | the log becomes the old log plus exactly one record, `(starttime, finishtime)` taken from the current fields, at the end; the times and the flag are unchanged |
| Timing.StopWatch.Clear | src/robertefry/jtoolkit/timing/StopWatch.java:52-54 | the log becomes empty; the times and the flag are unchanged |
| Timing.StopWatch.GetLaps | src/robertefry/jtoolkit/timing/StopWatch.java:61-63 | returns the current lap log |
| Timing.StopWatch.IsRunning | src/robertefry/jtoolkit/timing/StopWatch.java:70-72 | returns the running flag |
| StopWatchProperties.RunningIffStartedSinceLastStop | src/robertefry/jtoolkit/timing/StopWatch.java:28-40 | after any sequence of calls the watch is running if and only if some `start()` has no `stop()` after it, or it was running already and nothing stopped it |
| StopWatchProperties.FinishTimeIsLastStop | src/robertefry/jtoolkit/timing/StopWatch.java:37-40 | after any sequence of calls `finishtime` is the `now` of the most recent `stop()`, or is unchanged if there was none |
| StopWatchProperties.StartsIgnoredWhileRunning | src/robertefry/jtoolkit/timing/StopWatch.java:29 | on a running watch, any calls without a `stop()` leave it running with the same start and finish times; a run of `start()` calls alone leaves the whole state, lap log included, unchanged |
| StopWatchProperties.LogCallsKeepTimes | src/robertefry/jtoolkit/timing/StopWatch.java:45-54 | any sequence of `lap()` and `clear()` calls leaves the start time, the finish time and the running flag unchanged |
| StopWatchProperties.StartTimeOfCurrentRun | src/robertefry/jtoolkit/timing/StopWatch.java:28-32 | after `start(t)` on a stopped watch and any calls without a `stop()`, the watch is running and `starttime` is `t` |
| StopWatchProperties.LapAfterCycle | src/robertefry/jtoolkit/timing/StopWatch.java:28-47 | take `start(t1)` on a stopped watch, then any calls without a `stop()`, then `stop(t2)`, then only lap-log calls, then `lap()`. The watch is stopped and the last lap is `(t1, t2)`. When `t1 <= t2` and `t2 - t1` fits in a `long`, its running time is `t2 - t1`, which is not negative. The fit condition is needed because the wrapping subtraction can make a cycle's running time negative |
| StopWatchProperties.LapsWithoutClear | src/robertefry/jtoolkit/timing/StopWatch.java:45-47 | without `clear()`, the earlier laps remain a prefix of the log, in order, and the log grows by exactly the number of `lap()` calls |
| StopWatchProperties.LapsInCallOrder | src/robertefry/jtoolkit/timing/StopWatch.java:45-47 | without `clear()`, the laps are logged in call order. The `lap()` preceded by `k` earlier `lap()` calls sits right after the old log and those `k` entries. It records the start and finish times the watch had when that call was made |
| StopWatchProperties.LapsSinceLastClear | src/robertefry/jtoolkit/timing/StopWatch.java:52-54 | after a `clear()` followed by calls without another `clear()`, the log holds exactly the records of the later `lap()` calls, one each, in call order. Each record holds the times the watch had at its call |
| StopWatchProperties.RepeatedLaps | src/robertefry/jtoolkit/timing/StopWatch.java:46 | `n` consecutive `lap()` calls append `n` identical records of the current times, in call order, and change nothing else |
| StopWatchScenarios.LapOnFreshWatch | src/robertefry/jtoolkit/timing/StopWatch.java:17-47 | a lap on a fresh watch is `(0, 0)`, with running time 0 |
| StopWatchScenarios.StartStopLap | src/robertefry/jtoolkit/timing/StopWatch.java:28-47 | `start(t1)`, `stop(t2)`, `lap()` leave the log `[(t1, t2)]` and the watch stopped; its running time is `t2 - t1 >= 0` when `t1 <= t2` and `t2 - t1` fits in a `long` |
| StopWatchScenarios.LapWithoutStop | src/robertefry/jtoolkit/timing/StopWatch.java:28-47 | `start(t)` then `lap()` records the stale finish time: the log is `[(t, 0)]`, the watch still runs, and the running time is `-t` for `t >= 0` |
| StopWatchScenarios.DoubleStart | src/robertefry/jtoolkit/timing/StopWatch.java:28-47 | a second `start()` while running is ignored, so after `stop(t3)` the lap is `(t1, t3)` |
| StopWatchScenarios.TwoLapsThenClear | src/robertefry/jtoolkit/timing/StopWatch.java:45-54 | two laps give two equal records in the log, and `clear()` then leaves it empty |

## Left out

- `synchronized` and `volatile`: they only make calls from different threads mutually exclusive. Every method is modelled as one atomic step.
- `System.currentTimeMillis()` (line 22): the wall clock is a foreign call. It is replaced by the `now` argument of `Start` and `Stop`.
- Aliasing of the list that `getLaps()` returns (line 62): the source hands out its live `ArrayList`, which callers can change. `GetLaps` returns the current log as a value, so a caller's change to it cannot reach the watch.
- GetLaps: returns a value, not the live list. In the source a list obtained earlier from `getLaps()` also shows every later `lap()` and `clear()`. In `StopWatchScenarios.TwoLapsThenClear`, `before` is read as a value; the Java list held by a caller would be empty after `clear()`.
- Lap-record identity: Java's `LapLog` does not override `equals`, so two records taken from the same times are distinct objects. The "identical" and "equal" records in `StopWatchProperties.RepeatedLaps` and `StopWatchScenarios.TwoLapsThenClear` are equal as values (same start and finish times), not under `equals()`.
- `LapLog` is a non-static inner class holding a reference to its watch. That reference is never used, so the model's `LapLog` is a plain value. The `synchronized` getters `getStartTime()` and `getFinishTime()` are its destructors.
