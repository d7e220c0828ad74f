/** Concrete call sequences on a `StopWatch` object and what they leave in
    the lap log, including the quirks of the source kept as they are. */
module StopWatchScenarios {
  import opened JavaLong
  import opened Timing

  /** A lap on a fresh watch records `(0, 0)`, running time 0. */
  method LapOnFreshWatch() returns (log: seq<LapLog>)
    ensures log == [LapLog(0, 0)] && log[0].RunningTime() == 0
  {
    var w := new StopWatch();
    w.Lap();
    log := w.GetLaps();
  }

  /** `start()` at `t1`, `stop()` at `t2`, `lap()`: the lap is `(t1, t2)`
      and the watch is stopped; when `t1 <= t2` and `t2 - t1` fits in a
      `long` its running time is `t2 - t1`, never negative. */
  method StartStopLap(t1: Long, t2: Long) returns (log: seq<LapLog>, running: bool)
    ensures log == [LapLog(t1, t2)] && !running
    ensures t1 <= t2 && InRange(t2 - t1) ==> log[0].RunningTime() == t2 - t1 >= 0
  {
    var w := new StopWatch();
    w.Start(t1);
    w.Stop(t2);
    w.Lap();
    log := w.GetLaps();
    running := w.IsRunning();
  }

  /** A lap taken while running, never having stopped, pairs the start time
      with the stale finish time 0: its running time is `-t` for `t >= 0`. */
  method LapWithoutStop(t: Long) returns (log: seq<LapLog>, running: bool)
    ensures log == [LapLog(t, 0)] && running
    ensures 0 <= t ==> log[0].RunningTime() == -t
  {
    var w := new StopWatch();
    w.Start(t);
    w.Lap();
    log := w.GetLaps();
    running := w.IsRunning();
  }

  /** A second `start()` while running is ignored: the lap after `stop()`
      still starts at the first start time. */
  method DoubleStart(t1: Long, t2: Long, t3: Long) returns (log: seq<LapLog>)
    ensures log == [LapLog(t1, t3)]
  {
    var w := new StopWatch();
    w.Start(t1);
    w.Start(t2);
    w.Stop(t3);
    w.Lap();
    log := w.GetLaps();
  }

  /** Two laps then `clear()` leave an empty log. */
  method TwoLapsThenClear(t1: Long, t2: Long) returns (before: seq<LapLog>, after: seq<LapLog>)
    ensures before == [LapLog(t1, t2), LapLog(t1, t2)]
    ensures after == []
  {
    var w := new StopWatch();
    w.Start(t1);
    w.Stop(t2);
    w.Lap();
    w.Lap();
    before := w.GetLaps();
    w.Clear();
    after := w.GetLaps();
  }
}
